/**
 The outgoing path: characters written by the terminal wait in the transmit ring, go one by one
 through the encoder, and are handed to the link in blocks.
 */
module Outgoing {
  import opened Words
  import opened Codec
  import opened Transport
  import opened Lockstep
  import opened Lossless
  import opened Session
  import opened Burst
  import X = Xmit
  import C = Compressor

  /** What a decoder makes of the octets handed out so far. */
  ghost function Read(l: Limits, octets: Str): DecResult
    requires l.Valid()
  {
    Decode(DecInit(l), octets)
  }

  /** A decoder that reads `octets` is in step with the encoder, which has taken in `taken`. */
  ghost predicate Carried(l: Limits, e: Enc, octets: Str, taken: Str)
  {
    && l.Valid() && EncInv(e) && e.k.l == l
    && Read(l, octets).Ok? && Linked(e, Read(l, octets).d, Read(l, octets).x, taken)
  }

  lemma EncodeCarried(l: Limits, e: Enc, octets: Str, taken: Str, c: byte, choices: seq<bool>)
    requires Carried(l, e, octets, taken)
    ensures EncInv(e) && var (e1, out) := Encode(e, [c], choices);
            Carried(l, e1, octets + out, taken + [c]) && |out| <= Most(l)
  {
    hide Encode, Decode, Linked, EncInv, DecInit;
    var r := Read(l, octets);
    EncodeLinked(e, r.d, r.x, taken, [c], choices);
    LinkedParts(e, r.d, r.x, taken);
    DecodeThen(DecInit(l), octets, Encode(e, [c], choices).1);
    EncodeBound(e, c, choices);
  }

  lemma FlushCarried(l: Limits, e: Enc, octets: Str, taken: Str)
    requires Carried(l, e, octets, taken)
    ensures EncInv(e) && var (e1, out) := FlushEnc(e);
            Carried(l, e1, octets + out, taken) && Read(l, octets + out).x == taken && |out| <= Most(l)
  {
    hide FlushEnc, Decode, Linked, EncInv, DecInit;
    var r := Read(l, octets);
    FlushLinked(e, r.d, r.x, taken);
    LinkedParts(e, r.d, r.x, taken);
    DecodeThen(DecInit(l), octets, FlushEnc(e).1);
    FlushBound(e);
  }

  /** `octets` are what a fresh encoder emits for the calls `calls`, which take in `taken`. */
  ghost predicate Made(l: Limits, calls: seq<Call>, e: Enc, octets: Str, taken: Str)
  {
    l.Valid() && Run(EncInit(l), calls) == (e, octets) && Input(calls) == taken
  }

  lemma EncodeMade(l: Limits, calls: seq<Call>, e: Enc, octets: Str, taken: Str, c: byte, choices: seq<bool>)
    requires Made(l, calls, e, octets, taken)
    ensures EncInv(e) && var (e1, out) := Encode(e, [c], choices);
            Made(l, calls + [Data([c], choices)], e1, octets + out, taken + [c])
  {
    hide Encode, EncInv, Run, Input, EncInit;
    RunSnoc(EncInit(l), calls, Data([c], choices));
  }

  lemma FlushMade(l: Limits, calls: seq<Call>, e: Enc, octets: Str, taken: Str)
    requires Made(l, calls, e, octets, taken)
    ensures EncInv(e) && var (e1, out) := FlushEnc(e);
            Made(l, calls + [Flush], e1, octets + out, taken)
  {
    hide FlushEnc, EncInv, Run, Input, EncInit;
    RunSnoc(EncInit(l), calls, Flush);
    assert taken + [] == taken;
  }

  lemma NothingCarried(l: Limits)
    requires l.Valid()
    ensures Carried(l, EncInit(l), [], []) && Made(l, [], EncInit(l), [], [])
  {
    hide EncInv, Linked;
    FreshLinked(l);
  }

  lemma Regroup3(a: Str, b: Str, c: Str)
    ensures (a + b) + c == a + (b + c)
  {}

  class Outgoing {
    const l: Limits
    const xmit: X.Xmit
    const enc: C.Compressor
    ghost var taken: Str  // characters encoded so far
    ghost var given: Str  // octets handed out so far
    ghost var calls: seq<Call>  // calls of the encoder so far

    ghost predicate Inv()
      reads this, xmit, enc, enc.dict, enc.dict.dict, enc.strData
    {
      && xmit.Inv() && enc.EncOk() && xmit.buf != enc.strData
      && Carried(l, enc.E(), given + enc.obuf, taken)
      && Made(l, calls, enc.E(), given + enc.obuf, taken)
    }

    constructor (l: Limits, size: nat)
      requires l.Valid() && l.maxStr <= C.MAX_STRING && size > 0
      ensures Inv() && xmit.Inv() && fresh(xmit) && fresh(xmit.buf) && fresh(enc) && fresh(enc.dict)
              && fresh(enc.dict.dict) && fresh(enc.strData)
      ensures taken == given == enc.obuf == xmit.Contents() == [] && this.l == l && xmit.buf.Length == size
    {
      hide EncInv, Carried, Made, EncInit, C.R.Rep, Valid;
      this.l := l;
      xmit := new X.Xmit(size);
      enc := new C.Compressor(l);
      taken, given, calls := [], [], [];
      new;
      NothingCarried(l);
      assert given + enc.obuf == [];
      assert xmit.Contents() == [];
    }

    /** Hand out the octets that are ready, at most `n`. */
    method GetOData(n: nat) returns (s: Str)
      requires Inv()
      modifies this`given, enc`obuf
      ensures Inv() && given == old(given) + s && s + enc.obuf == old(enc.obuf)
      ensures |s| == X.Min(n, |old(enc.obuf)|) && enc.E() == old(enc.E())
    {
      hide EncInv, Carried, Made, C.R.Rep, Valid, Matched;
      var k := X.Min(n, |enc.obuf|);
      s := enc.obuf[..k];
      assert s + enc.obuf[k..] == enc.obuf;
      assert given + enc.obuf == (given + s) + enc.obuf[k..];
      given := given + s;
      enc.obuf := enc.obuf[k..];
    }

    /** Encode one character. */
    method EncodeOne(ch: byte)
      requires Inv() && enc.obuf == []
      modifies this`taken, this`calls, enc, enc.strData, enc.dict, enc.dict.dict
      ensures Inv() && taken == old(taken) + [ch] && |enc.obuf| <= Most(l)
    {
      hide EncInv, Carried, Made, C.R.Rep, Valid, Matched, Encode;
      ghost var e, octets := enc.E(), given;
      assert given + enc.obuf == given;
      ghost var choices := enc.Encode([ch]);
      assert enc.obuf[0..] == enc.obuf;
      EncodeCarried(l, e, octets, taken, ch, choices);
      EncodeMade(l, calls, e, octets, taken, ch, choices);
      calls := calls + [Data([ch], choices)];
      taken := taken + [ch];
    }

    method FlushOne()
      requires Inv() && enc.obuf == []
      modifies this`calls, enc
      ensures Inv() && |enc.obuf| <= Most(l) && l.Valid() && Read(l, given + enc.obuf).Ok?
              && Read(l, given + enc.obuf).x == taken
    {
      hide EncInv, Made, C.R.Rep, Valid, Matched, FlushEnc, Linked, Decode;
      ghost var e, octets := enc.E(), given;
      assert given + enc.obuf == given;
      enc.FlushEncoder();
      assert enc.obuf[0..] == enc.obuf;
      FlushCarried(l, e, octets, taken);
      FlushMade(l, calls, e, octets, taken);
      calls := calls + [Flush];
    }

    /** Encode one character into a block with room for `n` octets, after the octets that are ready. */
    method EncodeChar(ch: byte, n: nat) returns (s: Str)
      requires Inv()
      modifies this, enc, enc.strData, enc.dict, enc.dict.dict
      ensures Inv() && given == old(given) + s && |s| <= n && (|s| < n ==> enc.obuf == [])
      ensures |old(enc.obuf)| >= n ==> |s| == n
      ensures taken == (if |old(enc.obuf)| < n then old(taken) + [ch] else old(taken))
      ensures |enc.obuf| <= Most(l) || |enc.obuf| <= |old(enc.obuf)|
    {
      hide Inv, Most;
      s := GetOData(n);
      if |s| == n {
        return;
      }
      EncodeOne(ch);
      var more := GetOData(n - |s|);
      assert old(given) + s + more == old(given) + (s + more);
      s := s + more;
    }

    /** Flush the encoder into a block with room for `n` octets. */
    method FlushChars(n: nat) returns (s: Str)
      requires Inv() && xmit.Inv()
      modifies this, enc
      ensures Inv() && xmit.Inv() && given == old(given) + s && |s| <= n && taken == old(taken)
      ensures xmit.Contents() == old(xmit.Contents())
      ensures |enc.obuf| <= Most(l) || |enc.obuf| <= |old(enc.obuf)|
      ensures |s| < n ==> enc.obuf == [] && l.Valid() && Read(l, given).Ok? && Read(l, given).x == taken
    {
      hide Inv, Most, Read;
      s := GetOData(n);
      if |s| == n {
        return;
      }
      FlushOne();
      ghost var all := given + enc.obuf;
      var more := GetOData(n - |s|);
      assert old(given) + s + more == old(given) + (s + more);
      assert all == given + enc.obuf;
      assert enc.obuf == [] ==> all == given;
      s := s + more;
    }

    /** One character from the ring into a block with room for `n` octets, if there is a character. */
    method Fetch(n: nat) returns (s: Str, ch: Str)
      requires Inv()
      modifies this, xmit, enc, enc.strData, enc.dict, enc.dict.dict
      ensures Inv() && xmit.Inv() && given == old(given) + s && |s| <= n && |ch| == X.Min(1, old(xmit.count))
      ensures ch + xmit.Contents() == old(xmit.Contents()) && xmit.count == old(xmit.count) - |ch|
      ensures taken == (if |old(enc.obuf)| < n then old(taken) + ch else old(taken))
      ensures ch == [] ==> s == [] && enc.obuf == old(enc.obuf)
      ensures ch != [] ==> (|s| < n ==> enc.obuf == []) && (|old(enc.obuf)| >= n ==> |s| == n)
      ensures |enc.obuf| <= Most(l) || |enc.obuf| <= |old(enc.obuf)|
    {
      hide Most, C.R.Rep, EncInv, Carried, Made, Valid, Matched, X.Slot;
      var c := xmit.GetChars(1);
      ch := c;
      s := [];
      if c == [] {
        return;
      }
      assert c == [c[0]];
      ghost var left := xmit.Contents();
      s := EncodeChar(c[0], n);
      assert xmit.Contents() == left;
    }

    /** Characters from the ring through the encoder, until the block is full or the ring is empty. */
    method Pump(n: nat) returns (block: Str, ghost fetched: Str)
      requires Inv() && xmit.Inv() && n > 0
      modifies this, xmit, enc, enc.strData, enc.dict, enc.dict.dict
      ensures Inv() && xmit.Inv() && given == old(given) + block && |block| <= n
      ensures fetched + xmit.Contents() == old(xmit.Contents())
      ensures taken == old(taken) + if |old(enc.obuf)| < n then fetched else []
      ensures X.Min(1, |old(xmit.Contents())|) <= |fetched| && (|old(enc.obuf)| >= n ==> |fetched| <= 1)
      ensures |enc.obuf| <= X.Max(Most(l), |old(enc.obuf)|)
      ensures |block| < n ==> xmit.Contents() == []
    {
      hide Inv, Most, X.Slot, X.Xmit.Contents, X.Xmit.Inv;
      block, fetched := [], [];
      ghost var was, ready := xmit.Contents(), |enc.obuf|;
      while |block| < n
        invariant Inv() && xmit.Inv() && given == old(given) + block && |block| <= n
        invariant fetched + xmit.Contents() == was && |enc.obuf| <= X.Max(Most(l), ready)
        invariant fetched == [] ==> block == [] && |enc.obuf| == ready
        invariant fetched != [] && |block| < n ==> enc.obuf == []
        invariant taken == old(taken) + if ready < n then fetched else []
        invariant ready >= n && fetched != [] ==> |fetched| == 1 && |block| == n
        decreases xmit.count
      {
        var s, ch := Fetch(n - |block|);
        if ch == [] {
          break;
        }
        Regroup3(fetched, ch, xmit.Contents());
        Regroup3(old(given), block, s);
        fetched, block := fetched + ch, block + s;
      }
      assert fetched == [] ==> fetched + [] == was;
    }

    /**
     A block of at most `n` octets.  The characters fetched from the ring are all encoded unless
     `n` octets were ready beforehand, and then one character is fetched and lost.  A short block
     means that the ring is empty and that a decoder has everything.
     */
    method GetChars(n: nat) returns (block: Str, ghost fetched: Str)
      requires Inv() && xmit.Inv() && n > 0
      modifies this, xmit, enc, enc.strData, enc.dict, enc.dict.dict
      ensures Inv() && xmit.Inv() && given == old(given) + block && |block| <= n
      ensures fetched + xmit.Contents() == old(xmit.Contents())
      ensures taken == old(taken) + if |old(enc.obuf)| < n then fetched else []
      ensures X.Min(1, |old(xmit.Contents())|) <= |fetched| && (|old(enc.obuf)| >= n ==> |fetched| <= 1)
      ensures |enc.obuf| <= X.Max(Most(l), |old(enc.obuf)|)
      ensures |block| < n ==> xmit.Contents() == [] && l.Valid() && Read(l, given).Ok? && Read(l, given).x == taken
    {
      hide Inv, Most, X.Slot, X.Xmit.Contents, X.Xmit.Inv, Read;
      block, fetched := Pump(n);
      if |block| < n {
        var s := FlushChars(n - |block|);
        assert given == old(given) + block + s == old(given) + (block + s);
        block := block + s;
      }
    }

    /** Room in the ring for characters from the terminal. */
    method Write(s: Str) returns (k: nat)
      requires Inv() && xmit.Inv()
      modifies xmit, xmit.buf
      ensures k <= |s| && (k == |s| || k == xmit.buf.Length - old(xmit.count))
      ensures Inv() && xmit.Inv() && xmit.Contents() == old(xmit.Contents()) + s[..k]
    {
      hide X.Slot, X.Xmit.Contents, Carried, Made, EncInv, C.R.Rep, Valid, Matched;
      k := xmit.Write(s);
    }
  }

  // ----- whole runs -----

  /** The link asks for information fields of this many octets. */
  const BLOCK := 128

  /** What happens at the outgoing path: the terminal writes, the link asks for a block, or neither. */
  datatype Request = FromTerminal(s: Str) | ForLink | Elsewhere

  /** How a request went: characters accepted, the block handed out, characters left in the ring. */
  datatype Moment = Moment(took: nat, block: Str, waiting: nat)

  /**
   The ring holds `size` characters, `before` of them when request `r` comes.  A write is accepted
   as far as there is room; a block that is not full leaves the ring empty.
   */
  predicate Moved(size: nat, r: Request, before: nat, m: Moment)
  {
    match r
    case FromTerminal(s) =>
      before <= size && m.took == X.Min(|s|, size - before) && m.block == [] && m.waiting == before + m.took
    case ForLink =>
      m.took == 0 && |m.block| <= BLOCK && m.waiting <= before && (|m.block| < BLOCK ==> m.waiting == 0)
    case Elsewhere => m.took == 0 && m.block == [] && m.waiting == before
  }

  function Waiting(log: seq<Moment>): nat
  {
    if log == [] then 0 else log[|log| - 1].waiting
  }

  predicate Served(size: nat, rs: seq<Request>, log: seq<Moment>)
  {
    |log| == |rs| && forall i :: 0 <= i < |log| ==> Moved(size, rs[i], Waiting(log[..i]), log[i])
  }

  /** All octets handed out. */
  function Blocks(log: seq<Moment>): Str
  {
    if log == [] then [] else Blocks(log[..|log| - 1]) + log[|log| - 1].block
  }

  /** What was accepted of a write. */
  function Part(r: Request, m: Moment): Str
  {
    if r.FromTerminal? && m.took <= |r.s| then r.s[..m.took] else []
  }

  /** All characters accepted from the terminal. */
  function Accepted(rs: seq<Request>, log: seq<Moment>): Str
    requires |rs| == |log|
  {
    if rs == [] then []
    else
      var i := |rs| - 1;
      Accepted(rs[..i], log[..i]) + Part(rs[i], log[i])
  }

  /** The last block was not full, and nothing has been accepted since. */
  predicate Flushed(rs: seq<Request>, log: seq<Moment>)
    requires |rs| == |log|
  {
    if rs == [] then false
    else
      var i := |rs| - 1;
      if rs[i].ForLink? then |log[i].block| < BLOCK else log[i].took == 0 && Flushed(rs[..i], log[..i])
  }

  lemma LogSnoc(rs: seq<Request>, log: seq<Moment>, r: Request, m: Moment)
    requires |rs| == |log|
    ensures Accepted(rs + [r], log + [m]) == Accepted(rs, log) + Part(r, m)
    ensures Blocks(log + [m]) == Blocks(log) + m.block && Waiting(log + [m]) == m.waiting
    ensures Flushed(rs + [r], log + [m])
            <==> if r.ForLink? then |m.block| < BLOCK else m.took == 0 && Flushed(rs, log)
  {
    assert (rs + [r])[..|rs|] == rs && (log + [m])[..|log|] == log;
  }

  lemma ServedSnoc(size: nat, rs: seq<Request>, log: seq<Moment>, r: Request, m: Moment)
    requires Served(size, rs, log) && Moved(size, r, Waiting(log), m)
    ensures Served(size, rs + [r], log + [m])
  {
    var log1 := log + [m];
    forall i | 0 <= i < |log1|
      ensures Moved(size, (rs + [r])[i], Waiting(log1[..i]), log1[i])
    {
      assert log1[..i] == log[..i];
      if i == |log| {
        assert log[..i] == log;
      }
    }
  }

  /**
   What a decoder makes of the octets handed out is a prefix of what was accepted, and all of it
   once flushed.
   */
  ghost predicate Delivers(l: Limits, rs: seq<Request>, log: seq<Moment>)
    requires l.Valid() && |rs| == |log|
  {
    var r := Read(l, Blocks(log));
    r.Ok? && r.x <= Accepted(rs, log) && (Flushed(rs, log) ==> r.x == Accepted(rs, log))
  }

  /**
   The octets handed out are what a fresh encoder emits for the calls `calls`, short of fewer than
   128 octets, and these calls take in what was accepted, short of what waits in the ring.
   */
  ghost predicate Encoded(l: Limits, calls: seq<Call>, rs: seq<Request>, log: seq<Moment>)
    requires l.Valid() && |rs| == |log|
  {
    var out := Run(EncInit(l), calls).1;
    && Blocks(log) <= out && |out| < |Blocks(log)| + BLOCK
    && Input(calls) <= Accepted(rs, log) && |Accepted(rs, log)| == |Input(calls)| + Waiting(log)
  }

  /** A decoder of the octets handed out so far has a prefix of what was taken in. */
  lemma CarriedPrefix(l: Limits, e: Enc, given: Str, ready: Str, taken: Str)
    requires Carried(l, e, given + ready, taken)
    ensures l.Valid() && Read(l, given).Ok? && Read(l, given).x <= taken
  {
    hide Decode, Agree, EncInv, DecInv, InFlight, DecInit;
    FreshLinked(l);
    DecodePrefix(DecInit(l), given, ready);
    assert Read(l, given).x <= Read(l, given + ready).x <= taken;
  }

  lemma {:induction false} DecodePrefix(d: Dec, a: Str, b: Str)
    requires DecInv(d) && Decode(d, a + b).Ok?
    ensures Decode(d, a).Ok? && Decode(d, a).x <= Decode(d, a + b).x
    decreases |a|
  {
    hide DecByte, DecInv;
    if a != [] {
      assert (a + b)[0] == a[0] && (a + b)[1..] == a[1..] + b;
      var r := DecByte(d, a[0]);
      DecodePrefix(r.d, a[1..], b);
    }
  }

  /** One request; a block of 128 octets is more than the encoder ever has ready. */
  method ServeOne(o: Outgoing, r: Request) returns (m: Moment)
    requires o.Inv() && o.xmit.Inv() && |o.enc.obuf| < BLOCK && o.l.maxStr <= C.MAX_STRING
    modifies o, o.xmit, o.xmit.buf, o.enc, o.enc.strData, o.enc.dict, o.enc.dict.dict
    ensures o.Inv() && o.xmit.Inv() && |o.enc.obuf| < BLOCK && o.given == old(o.given) + m.block
    ensures Moved(o.xmit.buf.Length, r, old(|o.xmit.Contents()|), m) && m.waiting == |o.xmit.Contents()|
    ensures o.taken + o.xmit.Contents() == old(o.taken + o.xmit.Contents()) + Part(r, m)
    ensures r.ForLink? && |m.block| < BLOCK ==>
              o.xmit.Contents() == [] && o.l.Valid() && Read(o.l, o.given).Ok? && Read(o.l, o.given).x == o.taken
  {
    hide Read, X.Slot, X.Xmit.Contents, Outgoing.Inv;
    ghost var was := o.taken + o.xmit.Contents();
    RingSize(o.xmit);
    match r {
      case FromTerminal(s) =>
        var k := o.Write(s);
        m := Moment(k, [], o.xmit.count);
        assert o.taken + (old(o.xmit.Contents()) + s[..k]) == was + s[..k];
      case ForLink =>
        ghost var fetched: Str;
        var block;
        block, fetched := o.GetChars(BLOCK);
        m := Moment(0, block, o.xmit.count);
        assert old(o.taken) + (fetched + o.xmit.Contents()) == (old(o.taken) + fetched) + o.xmit.Contents();
        assert was + [] == was;
      case Elsewhere =>
        m := Moment(0, [], o.xmit.count);
        assert was + [] == was && o.given + [] == o.given;
    }
  }

  lemma RingSize(x: X.Xmit)
    requires x.Inv()
    ensures |x.Contents()| == x.count <= x.buf.Length
  {}

  /** The object `o` has come through the requests `rs` as `log` says. */
  ghost predicate Came(o: Outgoing, rs: seq<Request>, log: seq<Moment>)
    reads o, o.xmit, o.xmit.buf, o.enc, o.enc.dict, o.enc.dict.dict, o.enc.strData
  {
    && o.Inv() && o.xmit.Inv() && |o.enc.obuf| < BLOCK && |rs| == |log| && Served(o.xmit.buf.Length, rs, log)
    && o.given == Blocks(log) && o.taken + o.xmit.Contents() == Accepted(rs, log)
    && Waiting(log) == |o.xmit.Contents()|
    && (Flushed(rs, log) ==> o.l.Valid() && Read(o.l, o.given).Ok? && Read(o.l, o.given).x == Accepted(rs, log))
  }

  /** What that means. */
  lemma CameMeans(o: Outgoing, rs: seq<Request>, log: seq<Moment>)
    requires Came(o, rs, log)
    ensures o.l.Valid() && |rs| == |log| && Delivers(o.l, rs, log) && Encoded(o.l, o.calls, rs, log)
  {
    hide Read, Run, Input, EncInit, Carried, Served, X.Slot, X.Xmit.Contents, C.Compressor.E;
    CarriedPrefix(o.l, o.enc.E(), o.given, o.enc.obuf, o.taken);
  }

  /** One more request. */
  method ServeNext(o: Outgoing, r: Request, ghost rs: seq<Request>, ghost log: seq<Moment>) returns (m: Moment)
    requires Came(o, rs, log) && o.l.maxStr <= C.MAX_STRING
    modifies o, o.xmit, o.xmit.buf, o.enc, o.enc.strData, o.enc.dict, o.enc.dict.dict
    ensures Came(o, rs + [r], log + [m]) && o.given == old(o.given) + m.block && (!r.ForLink? ==> m.block == [])
  {
    hide Read, X.Slot, X.Xmit.Contents, Outgoing.Inv, Accepted, Blocks, Flushed, Served, Part, Moved;
    ghost var was, given := o.taken + o.xmit.Contents(), o.given;
    m := ServeOne(o, r);
    LogSnoc(rs, log, r, m);
    ServedSnoc(o.xmit.buf.Length, rs, log, r, m);
    NothingAccepted(o.xmit.buf.Length, r, Waiting(log), m);
    assert was + [] == was && given + [] == given;
    assert o.xmit.Contents() == [] ==> o.taken + o.xmit.Contents() == o.taken;
  }

  /** Where nothing is accepted, and where a block is asked for, the characters stay the same. */
  lemma NothingAccepted(size: nat, r: Request, before: nat, m: Moment)
    requires Moved(size, r, before, m)
    ensures r.ForLink? || m.took == 0 ==> Part(r, m) == []
    ensures !r.ForLink? ==> m.block == []
  {}

  /**
   Any writes of the terminal and any requests of the link, in any order: each is served as `log`
   says.  Every character accepted from the terminal goes through the encoder once and in order,
   and at every moment what a decoder makes of the octets handed out is a prefix of what was
   accepted, and all of it after a block that is not full.
   */
  method Serve(l: Limits, size: nat, rs: seq<Request>) returns (log: seq<Moment>, ghost calls: seq<Call>)
    requires l.Valid() && l.maxStr <= C.MAX_STRING && size > 0
    ensures Served(size, rs, log) && Encoded(l, calls, rs, log)
    ensures forall i :: 0 <= i <= |rs| ==> Delivers(l, rs[..i], log[..i])
  {
    hide Came, Delivers, Encoded, Served, X.Slot, X.Xmit.Contents, Outgoing.Inv;
    var o := new Outgoing(l, size);
    log := [];
    CameToNothing(o);
    CameMeans(o, [], log);
    assert rs[..0] == [];
    while |log| < |rs|
      invariant |log| <= |rs| && Came(o, rs[..|log|], log) && o.l == l && o.xmit.buf.Length == size
      invariant fresh(o) && fresh(o.xmit) && fresh(o.xmit.buf)
      invariant fresh(o.enc) && fresh(o.enc.dict) && fresh(o.enc.dict.dict) && fresh(o.enc.strData)
      invariant forall i :: 0 <= i <= |log| ==> Delivers(l, rs[..i], log[..i])
    {
      ghost var was := log;
      var m := ServeNext(o, rs[|log|], rs[..|log|], log);
      assert rs[..|log|] + [rs[|log|]] == rs[..|log| + 1];
      log := log + [m];
      CameMeans(o, rs[..|log|], log);
      assert log[..|log|] == log;
      assert forall i :: 0 <= i <= |was| ==> log[..i] == was[..i];
    }
    assert rs[..|log|] == rs;
    CameServed(o, rs, log);
    CameMeans(o, rs, log);
    calls := o.calls;
  }

  lemma CameCarried(o: Outgoing, rs: seq<Request>, log: seq<Moment>)
    requires Came(o, rs, log)
    ensures Carried(o.l, o.enc.E(), o.given + o.enc.obuf, o.taken)
    ensures o.given == Blocks(log) && o.taken <= Accepted(rs, log)
    ensures Flushed(rs, log) ==> o.l.Valid() && Read(o.l, o.given).Ok? && Read(o.l, o.given).x == Accepted(rs, log)
  {
    hide Carried, Made, Read, Served, Accepted, Blocks, Flushed, C.Compressor.E, X.Slot, X.Xmit.Contents;
  }

  lemma CameServed(o: Outgoing, rs: seq<Request>, log: seq<Moment>)
    requires Came(o, rs, log)
    ensures Served(o.xmit.buf.Length, rs, log)
  {}

  lemma CameToNothing(o: Outgoing)
    requires o.Inv() && o.xmit.Inv() && o.xmit.Contents() == [] && o.given == o.taken == [] && o.enc.obuf == []
    ensures Came(o, [], [])
  {
    hide Outgoing.Inv;
  }

  // ----- smaller blocks -----

  /** A fresh decoder of one octet has that octet, or awaits the command after an escape character. */
  lemma OneOctet(l: Limits, b: byte)
    requires l.Valid()
    ensures var r := Read(l, [b]);
            r.Ok? && r.d.mode.Transparent? && if b == 0 then r.d.escaped else r.x == [b]
  {
    hide Feed, MatcherInv;
    var r := DecByte(DecInit(l), b);
    assert [b][1..] == [] && r.x + [] == r.x;
    assert Decode(r.d, []) == Ok(r.d, []);
  }

  /** No single octet carries the character 0, which is the first escape character. */
  lemma NoSingleOctet(l: Limits, e: Enc, b: byte)
    requires l.Valid()
    ensures !Carried(l, e, [b], [0])
  {
    hide CaughtUp, MatcherInv, FeedAll, Read, EncInv, DecInv;
    OneOctet(l, b);
    var r := Read(l, [b]);
    assert r.x == [b] ==> (r.x + InFlight(e, r.d))[0] == b;
  }

  /**
   With blocks of a single octet, a character can be dropped: character 0 is two octets long, and
   the second of them is still there when the next character comes.  From the state returned, a
   block of one octet takes `c` from the ring without encoding it (GetChars).
   */
  method AboutToDrop(l: Limits, c: byte) returns (o: Outgoing)
    requires l.Valid() && l.maxStr <= C.MAX_STRING
    ensures fresh(o) && fresh(o.xmit) && fresh(o.enc)
    ensures fresh(o.enc.dict) && fresh(o.enc.dict.dict) && fresh(o.enc.strData)
    ensures o.Inv() && o.xmit.Inv() && o.taken == [0] && o.xmit.Contents() == [c] && o.enc.obuf != []
  {
    hide Read, X.Slot, X.Xmit.Contents, Outgoing.Inv;
    o := new Outgoing(l, 1);
    var k := o.Write([0]);
    RingSize(o.xmit);
    assert [] + [0][..k] == [0];
    var block;
    ghost var fetched: Str;
    block, fetched := o.GetChars(1);
    SecondOctet(o, block);
    k := o.Write([c]);
    RingSize(o.xmit);
    assert [] + [c][..k] == [c];
  }

  lemma SecondOctet(o: Outgoing, block: Str)
    requires o.Inv() && o.l.Valid() && o.taken == [0] && o.given == block && |block| <= 1
    requires |block| < 1 ==> Read(o.l, o.given).Ok? && Read(o.l, o.given).x == o.taken
    ensures o.enc.obuf != []
  {
    hide Carried, Made, Read, X.Slot;
    if block == [] {
      NoOctet(o.l);
    } else {
      assert o.enc.obuf == [] ==> o.given + o.enc.obuf == [block[0]];
      NoSingleOctet(o.l, o.enc.E(), block[0]);
    }
  }

  lemma NoOctet(l: Limits)
    requires l.Valid()
    ensures Read(l, []).Ok? && Read(l, []).x == []
  {}
}
