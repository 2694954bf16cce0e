/**
 The V.42bis encoder and decoder as functions on values: what the fields of the compressor
 object stand for, and what each of its operations does to them (see Compressor.dfy).
 */
module Codec {
  import opened Words
  import opened Bits

  datatype Mode = Transparent | Compressed

  /**
   The string matcher, which both directions run: the dictionary, the entry that waits for its
   extension (`updateAt`), the entry matched so far and the entry added last.
   */
  datatype Matcher = Matcher(l: Limits, w: Words, updateAt: nat, lastMatched: nat, lastAdded: nat)

  ghost predicate Extensible(k: Matcher, n: nat)
  {
    n == 0 || (Has(k.w, n) && |StrOf(k.w, n)| < k.l.maxStr)
  }

  ghost predicate MatcherInv(k: Matcher)
  {
    && Valid(k.w, k.l)
    && Extensible(k, k.updateAt)
    && Extensible(k, k.lastMatched)
    && (k.updateAt == 0 || k.lastMatched == 0)
    && (k.lastAdded == 0 || k.lastAdded >= FIRST_FREE)
  }

  /** The string matched so far. */
  ghost function Matched(k: Matcher): (s: Str)
    requires MatcherInv(k)
  {
    if k.lastMatched == 0 then [] else StrOf(k.w, k.lastMatched)
  }

  lemma MatchSpec(w: Words, l: Limits, at: nat, c: byte)
    requires Valid(w, l) && (at == 0 || Has(w, at))
    ensures var n := Match(w, at, c);
            n != 0 ==> Has(w, n) && StrOf(w, n) == (if at == 0 then [] else StrOf(w, at)) + [c]
                       && (at != 0 ==> n >= FIRST_FREE)
  {}

  /** Add the pending entry extended by the character that came after it, unless it is there already. */
  ghost function Resolve(k: Matcher, c: byte): (r: Matcher)
    requires MatcherInv(k)
    ensures MatcherInv(r) && r.updateAt == 0 && r.lastMatched == k.lastMatched && r.l == k.l
  {
    if k.updateAt == 0 then k
    else if Match(k.w, k.updateAt, c) == 0 then
      AddSpec(k.w, k.l, k.updateAt, c);
      k.(w := Add(k.w, k.l, k.updateAt, c), lastAdded := k.w.nextFree, updateAt := 0)
    else k.(updateAt := 0)
  }

  /** The string matched so far cannot be followed by `c`: no such entry, or the entry is too recent. */
  ghost predicate Ends(k: Matcher, c: byte)
    requires MatcherInv(k)
  {
    var n := Match(k.w, k.lastMatched, c);
    n == 0 || n == k.lastAdded
  }

  ghost function Cut(k: Matcher, c: byte): (r: Matcher)
    requires MatcherInv(k) && k.updateAt == 0
    ensures MatcherInv(r) && r.lastMatched == 0 && r.l == k.l
  {
    if Match(k.w, k.lastMatched, c) == 0 then k.(updateAt := k.lastMatched, lastMatched := 0)
    else k.(lastAdded := 0, lastMatched := 0)
  }

  /** Extend the match by `c`; a string of the maximum length is complete at once. */
  ghost function Push(k: Matcher, c: byte): (r: Matcher)
    requires MatcherInv(k) && !Ends(k, c) && k.updateAt == 0
    ensures MatcherInv(r) && r.updateAt == 0 && r.l == k.l
    ensures |Matched(k)| + 1 == k.l.maxStr ==> r.lastMatched == 0
    ensures |Matched(k)| + 1 < k.l.maxStr ==> r.lastMatched != 0 && Matched(r) == Matched(k) + [c]
  {
    MatchSpec(k.w, k.l, k.lastMatched, c);
    var n := Match(k.w, k.lastMatched, c);
    if |StrOf(k.w, n)| == k.l.maxStr then k.(lastMatched := 0) else k.(lastMatched := n)
  }

  /** A first character never ends a string, nor completes one. */
  lemma RootGoesOn(k: Matcher, c: byte)
    requires MatcherInv(k)
    ensures k.lastMatched == 0 ==> !Ends(k, c) && (k.updateAt == 0 ==> Push(k, c).lastMatched != 0)
  {}

  /** One character through the matcher, ending the current string first where it must. */
  ghost function Feed(k: Matcher, c: byte): (r: Matcher)
    requires MatcherInv(k)
    ensures MatcherInv(r) && r.updateAt == 0 && r.l == k.l
  {
    var k1 := Resolve(k, c);
    if Ends(k1, c) then Push(Resolve(Cut(k1, c), c), c) else Push(k1, c)
  }

  // ----- escape character -----

  const ESCAPE_STEP := 51

  function Bump(esc: byte): (r: byte)
    ensures r != esc
  {
    (esc + ESCAPE_STEP) % 256
  }

  function EscAfter(s: Str, esc: byte): byte
  {
    if s == [] then esc else EscAfter(s[1..], if s[0] == esc then Bump(esc) else esc)
  }

  const CC_ECM: byte := 0
  const CC_EID: byte := 1
  const CC_RESET: byte := 2

  /** Transparent form of a string: every escape character is followed by EID, and moves the escape character. */
  function Escaped(s: Str, esc: byte): Str
  {
    if s == [] then []
    else if s[0] == esc then [esc, CC_EID] + Escaped(s[1..], Bump(esc))
    else [s[0]] + Escaped(s[1..], esc)
  }

  // ----- codeword packing -----

  const CCW_ETM: nat := 0
  const CCW_FLUSH: nat := 1
  const CCW_STEPUP: nat := 2

  /** Codeword width, the codeword that needs a larger one, and the bits not yet sent. */
  datatype Packer = Packer(cwSize: nat, threshold: nat, bits: seq<bool>)

  ghost predicate PackerInv(p: Packer)
  {
    9 <= p.cwSize <= 15 && p.threshold == Pow2(p.cwSize) && |p.bits| < 8
  }

  const START := Packer(9, 512, [])

  function PutBits(p: Packer, b: seq<bool>): (r: (Packer, Str))
    ensures r.0.cwSize == p.cwSize && r.0.threshold == p.threshold && |r.0.bits| < 8
  {
    (p.(bits := Rest(p.bits + b)), Octets(p.bits + b))
  }

  function PutCode(p: Packer, cw: nat): (Packer, Str)
  {
    PutBits(p, BitsOf(cw, p.cwSize))
  }

  /** A codeword followed by zeros up to an octet boundary. */
  function PutAligned(p: Packer, cw: nat): (r: (Packer, Str))
    ensures r.0.bits == []
  {
    var b := BitsOf(cw, p.cwSize);
    PutBits(p, b + Padding(|p.bits| + |b|))
  }

  function StepUp(p: Packer): (Packer, Str)
  {
    var (p1, out) := PutCode(p, CCW_STEPUP);
    (p1.(cwSize := p1.cwSize + 1, threshold := 2 * p1.threshold), out)
  }

  lemma Pow2Small()
    ensures Pow2(9) == 512 && Pow2(15) == 32768
  {
    Pow2Eight();
    assert Pow2(9) == 2 * Pow2(8);
    assert Pow2(11) == 4 * Pow2(9);
    assert Pow2(13) == 4 * Pow2(11);
    assert Pow2(15) == 4 * Pow2(13);
  }

  /** A data codeword, after as many STEPUPs as its width needs. */
  ghost function PutData(p: Packer, cw: nat): (r: (Packer, Str))
    requires PackerInv(p) && cw < 32768
    ensures PackerInv(r.0) && cw < r.0.threshold
    decreases cw - p.threshold
  {
    Pow2Small();
    if cw < p.threshold then PutCode(p, cw)
    else
      var (p1, out1) := StepUp(p);
      var (p2, out2) := PutData(p1, cw);
      (p2, out1 + out2)
  }

  // ----- encoder -----

  /** `str` is the end of the matched string that has not been sent. */
  datatype Enc = Enc(k: Matcher, mode: Mode, esc: byte, str: Str, p: Packer)

  ghost predicate EncInv(e: Enc)
  {
    && MatcherInv(e.k) && PackerInv(e.p)
    && |e.str| <= |Matched(e.k)|
    && (e.mode.Transparent? ==> e.p.bits == [])
    && (e.mode.Compressed? ==> e.str == Matched(e.k))
  }

  ghost function EncInit(l: Limits): (e: Enc)
    requires l.Valid()
    ensures EncInv(e)
  {
    EmptyValid(l);
    Pow2Small();
    Enc(Matcher(l, EMPTY, 0, 0, 0), Transparent, 0, [], START)
  }

  lemma HasBound(k: Matcher, n: nat)
    requires MatcherInv(k) && Has(k.w, n)
    ensures n < 32768
  {}

  /** Send the collected string: its characters, or the codeword that stands for it. */
  ghost function Send(e: Enc, cw: nat): (r: (Enc, Str))
    requires PackerInv(e.p) && cw < 32768
    ensures PackerInv(r.0.p) && r.0.str == [] && r.0.k == e.k && r.0.mode == e.mode
    ensures e.mode.Transparent? ==> r.0.p == e.p
  {
    match e.mode
    case Transparent => (e.(str := [], esc := EscAfter(e.str, e.esc)), Escaped(e.str, e.esc))
    case Compressed =>
      var (p, out) := PutData(e.p, cw);
      (e.(str := [], esc := EscAfter(e.str, e.esc), p := p), out)
  }

  /** The outcome of offering one character: the string may end before it, or after it. */
  datatype Offer = Offer(e: Enc, out: Str, taken: bool, ended: bool)

  ghost function Step(e: Enc, c: byte): (r: Offer)
    requires EncInv(e)
    ensures EncInv(r.e) && r.e.k.l == e.k.l
    ensures e.k.lastMatched == 0 ==> r.taken
    ensures !r.taken ==> r.e.k.lastMatched == 0 && r.ended
    ensures r.ended ==> r.e.k.lastMatched == 0
  {
    var k := Resolve(e.k, c);
    if Ends(k, c) then
      HasBound(k, k.lastMatched);
      var (e1, out) := Send(e.(k := k), k.lastMatched);
      Offer(e1.(k := Cut(k, c)), out, false, true)
    else
      MatchSpec(k.w, k.l, k.lastMatched, c);
      var cw := Match(k.w, k.lastMatched, c);
      HasBound(k, cw);
      var e1 := e.(k := Push(k, c), str := e.str + [c]);
      if e1.k.lastMatched != 0 then Offer(e1, [], true, false)
      else
        var (e2, out) := Send(e1, cw);
        Offer(e2, out, true, true)
  }

  /** Leave the string matched so far waiting for its extension, and send it. */
  ghost function SendPending(e: Enc): (r: (Enc, Str))
    requires EncInv(e)
    ensures EncInv(r.0) && r.0.k.lastMatched == 0 && r.0.mode == e.mode && r.0.k.l == e.k.l
  {
    if e.k.lastMatched == 0 then (e, [])
    else
      HasBound(e.k, e.k.lastMatched);
      var (e1, out) := Send(e, e.k.lastMatched);
      (e1.(k := e1.k.(updateAt := e1.k.lastMatched, lastMatched := 0)), out)
  }

  /** Change mode: the test that decides it depends on the compression ratio only. */
  ghost function Switch(e: Enc): (r: (Enc, Str))
    requires EncInv(e)
    ensures EncInv(r.0) && r.0.mode != e.mode && r.0.k.lastMatched == 0 && r.0.k.l == e.k.l
  {
    var (e1, out) := SendPending(e);
    match e.mode
    case Transparent => (e1.(mode := Compressed), out + [e1.esc, CC_ECM])
    case Compressed =>
      var (p, aligned) := PutAligned(e1.p, CCW_ETM);
      (e1.(mode := Transparent, p := p, k := e1.k.(lastAdded := 0)), out + aligned)
  }

  /** What one turn of the encoder's loop leaves: its state, its output, and what is still to be done. */
  datatype Turn = Turn(e: Enc, out: Str, rest: Str, choices: seq<bool>)

  /**
   Offer the first character of `s`; then, if a string ended or the buffer is used up, make the
   compression test.  `choices` gives the successive results of that test; a missing result
   means no change.
   */
  ghost function Round(e: Enc, s: Str, choices: seq<bool>): (r: Turn)
    requires EncInv(e) && s != []
    ensures EncInv(r.e) && r.e.k.l == e.k.l
    ensures r.rest == s[1..] || (r.rest == s && r.e.k.lastMatched == 0 && e.k.lastMatched != 0)
  {
    var o := Step(e, s[0]);
    var rest := if o.taken then s[1..] else s;
    if o.ended || rest == [] then
      var go := choices != [] && choices[0];
      var (e1, out1) := if go then Switch(o.e) else (o.e, []);
      Turn(e1, o.out + out1, rest, if choices == [] then [] else choices[1..])
    else Turn(o.e, o.out, rest, choices)
  }

  /** Encode a buffer. */
  ghost function Encode(e: Enc, s: Str, choices: seq<bool>): (r: (Enc, Str))
    requires EncInv(e)
    ensures EncInv(r.0) && r.0.k.l == e.k.l
    decreases |s|, e.k.lastMatched != 0
  {
    if s == [] then (e, [])
    else
      var t := Round(e, s, choices);
      var (e1, out) := Encode(t.e, t.rest, t.choices);
      (e1, t.out + out)
  }

  /** Flush: nothing while an extension is pending; otherwise everything collected goes out now. */
  ghost function FlushEnc(e: Enc): (r: (Enc, Str))
    requires EncInv(e)
    ensures EncInv(r.0) && r.0.k.l == e.k.l
  {
    if e.k.updateAt != 0 then (e, [])
    else
      match e.mode
      case Transparent =>
        if e.k.lastMatched == 0 then (e, []) else HasBound(e.k, e.k.lastMatched); Send(e, e.k.lastMatched)
      case Compressed =>
        var (e1, out) := SendPending(e);
        var (p, aligned) := PutAligned(e1.p, CCW_FLUSH);
        (e1.(p := p), out + aligned)
  }

  // ----- decoder -----

  /** `q` holds received bits of an incomplete codeword; `escaped` is set after an escape character. */
  datatype Dec = Dec(k: Matcher, mode: Mode, esc: byte, escaped: bool, cwSize: nat, threshold: nat, q: seq<bool>)

  ghost predicate DecInv(d: Dec)
  {
    && MatcherInv(d.k)
    && 9 <= d.cwSize <= 15 && d.threshold == Pow2(d.cwSize)
    && |d.q| < d.cwSize
    && (d.mode.Transparent? ==> d.q == [])
    && (d.mode.Compressed? ==> d.k.lastMatched == 0 && !d.escaped)
  }

  /**
   `Ok` carries the characters decoded.  `CError` is the decoder's own error return.  `Outside`
   marks input that no encoder produces and that the decoder does not check: an unallocated
   codeword, a width beyond 15 bits, or padding that is not zero.
   */
  datatype DecResult = Ok(d: Dec, x: Str) | CError | Outside

  ghost function DecInit(l: Limits): (d: Dec)
    requires l.Valid()
    ensures DecInv(d)
  {
    EmptyValid(l);
    Pow2Small();
    Dec(Matcher(l, EMPTY, 0, 0, 0), Transparent, 0, false, 9, 512, [])
  }

  /** The decoder's dictionary update for a string that starts with `c`. */
  ghost function Learn(k: Matcher, c: byte): (r: Matcher)
    requires MatcherInv(k)
    ensures MatcherInv(r) && r.l == k.l && r.lastMatched == k.lastMatched
  {
    var r := Resolve(k, c);
    if k.updateAt != 0 && Match(k.w, k.updateAt, c) != 0 && Match(k.w, k.updateAt, c) == k.lastAdded
    then r.(lastAdded := 0) else r
  }

  /** A data codeword. */
  ghost function Receive(d: Dec, cw: nat): (r: DecResult)
    requires DecInv(d) && d.mode.Compressed?
    ensures r.Ok? ==> DecInv(r.d) && r.d.k.l == d.k.l
  {
    if cw == d.k.w.nextFree then CError
    else if !Has(d.k.w, cw) then Outside
    else
      var s := StrOf(d.k.w, cw);
      StrBounds(d.k, cw);
      var k := Learn(d.k, s[0]);
      if k.w != d.k.w && cw == k.w.nextFree then CError
      else
        LearnKeeps(d.k, s[0], cw);
        var at := if |s| == k.l.maxStr then 0 else cw;
        Ok(d.(k := k.(updateAt := at), esc := EscAfter(s, d.esc)), s)
  }

  lemma StrBounds(k: Matcher, n: nat)
    requires MatcherInv(k) && Has(k.w, n)
    ensures 1 <= |StrOf(k.w, n)| <= k.l.maxStr
  {}

  lemma LearnKeeps(k: Matcher, c: byte, n: nat)
    requires MatcherInv(k) && Has(k.w, n)
    requires Learn(k, c).w == k.w || n != Learn(k, c).w.nextFree
    ensures Has(Learn(k, c).w, n) && StrOf(Learn(k, c).w, n) == StrOf(k.w, n)
  {
    if Learn(k, c).w != k.w {
      AddKeeps(k.w, k.l, k.updateAt, c, n);
    }
  }

  /** A complete codeword, with `d.q` the bits received after it. */
  ghost function Codeword(d: Dec, cw: nat): (r: DecResult)
    requires DecInv(d) && d.mode.Compressed?
    ensures r.Ok? ==> DecInv(r.d) && r.d.k.l == d.k.l
  {
    if cw == CCW_ETM then
      if AllZero(d.q) then
        Ok(d.(q := [], mode := Transparent, k := d.k.(lastMatched := 0, lastAdded := 0)), [])
      else Outside
    else if cw == CCW_FLUSH then
      if AllZero(d.q) then Ok(d.(q := []), []) else Outside
    else if cw == CCW_STEPUP then
      if d.cwSize + 1 > d.k.l.size / 8 then CError
      else if d.cwSize == 15 then Outside
      else Ok(d.(cwSize := d.cwSize + 1, threshold := 2 * d.threshold), [])
    else Receive(d, cw)
  }

  /** A character in transparent mode. */
  ghost function Literal(d: Dec, c: byte): (r: DecResult)
    requires DecInv(d) && d.mode.Transparent?
    ensures r.Ok? && DecInv(r.d) && r.d.k.l == d.k.l
  {
    Ok(d.(k := Feed(d.k, c)), [c])
  }

  ghost function DecByte(d: Dec, b: byte): (r: DecResult)
    requires DecInv(d)
    ensures r.Ok? ==> DecInv(r.d) && r.d.k.l == d.k.l
  {
    match d.mode
    case Compressed =>
      var q := d.q + BitsOf(b, 8);
      if |q| < d.cwSize then Ok(d.(q := q), [])
      else Codeword(d.(q := q[d.cwSize..]), Value(q[..d.cwSize]))
    case Transparent =>
      if d.escaped then
        var d1 := d.(escaped := false);
        if b == CC_ECM then
          Ok(d1.(mode := Compressed, k := d.k.(updateAt := d.k.lastMatched, lastMatched := 0)), [])
        else if b == CC_EID then Literal(d1.(esc := Bump(d.esc)), d.esc)
        else if b == CC_RESET then Ok(DecInit(d.k.l), [])
        else CError
      else if b == d.esc then Ok(d.(escaped := true), [])
      else Literal(d, b)
  }

  /** A decoding result after `x` has been decoded already. */
  function Join(x: Str, r: DecResult): DecResult
  {
    if r.Ok? then Ok(r.d, x + r.x) else r
  }

  ghost function Decode(d: Dec, bs: Str): (r: DecResult)
    requires DecInv(d)
    ensures r.Ok? ==> DecInv(r.d) && r.d.k.l == d.k.l
    decreases |bs|
  {
    if bs == [] then Ok(d, [])
    else
      match DecByte(d, bs[0])
      case Ok(d1, x) => Join(x, Decode(d1, bs[1..]))
      case CError => CError
      case Outside => Outside
  }
}
