/** A start-stop transmitter and receiver joined by a line. */
module AsyncLink {
  import opened Words
  import opened Registers
  import opened Async
  import opened AsyncPacker
  import H = Hdlc
  import P = HdlcPacker
  import L = HdlcLink

  /** New characters for the transmitter, and then a request for `cnt` groups of `n` bits. */
  datatype Request = Request(chars: Str, n: nat, cnt: nat)

  function Given(rs: seq<Request>): Str
  {
    if rs == [] then [] else Given(rs[..|rs| - 1]) + rs[|rs| - 1].chars
  }

  lemma GivenSnoc(rs: seq<Request>, i: nat)
    requires i < |rs|
    ensures Given(rs[..i + 1]) == Given(rs[..i]) + rs[i].chars
  {
    assert rs[..i + 1][..i] == rs[..i];
  }

  /** Cutting into groups loses nothing if the groups come out even. */
  lemma CutExact(bits: seq<bool>, n: nat)
    requires 1 <= n <= 8 && |bits| % n == 0
    ensures H.Flatten(P.Groups(P.Cut(bits, n), n)) == bits
  {
    var all := H.Flatten(P.Groups(P.Cut(bits, n), n));
    P.CutBits(bits, n);
    L.FlattenLength(P.Cut(bits, n), n);
    Multiples(|all|, |bits|, n, |P.Cut(bits, n)|, |bits| / n);
  }

  lemma Multiples(a: nat, b: nat, n: nat, j: nat, k: nat)
    requires a == n * j && b == n * k && b - n < a <= b
    ensures a == b
  {
    assert n * (k - 1) == b - n;
    assert j <= k - 1 ==> n * j <= n * (k - 1);
  }

  /** The line read so far shows the characters put on it, from the first on. */
  lemma SeenPrefix(seen: seq<bool>, pending: seq<bool>, items: seq<Item>)
    requires seen + pending == Line(items)
    ensures Read(seen) <= Chars(items) && (pending == [] ==> Read(seen) == Chars(items))
  {
    hide Read, Line, Chars, Left;
    ReadPrefix(seen, pending);
    ReadLine(items);
    if pending == [] {
      assert seen + pending == seen;
    }
  }

  /** The number of bits requested. */
  function Total(rs: seq<Request>): nat
  {
    if rs == [] then 0 else Total(rs[..|rs| - 1]) + rs[|rs| - 1].n * rs[|rs| - 1].cnt
  }

  lemma TotalSnoc(rs: seq<Request>, i: nat)
    requires i < |rs|
    ensures Total(rs[..i + 1]) == Total(rs[..i]) + rs[i].n * rs[i].cnt
  {
    assert rs[..i + 1][..i] == rs[..i];
  }

  /** The last request reaches past the last character. */
  predicate Drains(rs: seq<Request>)
  {
    rs != [] && rs[|rs| - 1].n * rs[|rs| - 1].cnt >= 17 + 10 * |Given(rs)|
  }

  /** One request. */
  method Serve(tx: Transmitter, r: Request, ghost given: Str) returns (bits: seq<bool>)
    requires tx.Inv() && 1 <= r.n <= 8 && Chars(tx.items) + tx.source == given
    modifies tx
    ensures tx.Inv() && Chars(tx.items) + tx.source == given + r.chars && tx.emitted == old(tx.emitted) + bits
    ensures |bits| == r.n * r.cnt
    ensures |bits| >= 17 + 10 * |given + r.chars| ==> tx.source == [] && tx.bit == 0
  {
    hide Window, Line, Chars, H.Flatten;
    tx.source := tx.source + r.chars;
    assert Chars(tx.items) + tx.source == given + r.chars;
    assert |tx.source| <= |given + r.chars| && tx.bit <= 17;
    var groups := tx.GetBits(r.n, r.cnt);
    L.FlattenLength(groups, r.n);
    bits := H.Flatten(P.Groups(groups, r.n));
  }

  /**
   Characters offered in any portions and sent in groups of any sizes, with marks wherever the
   source runs dry, then received in groups of `rxN` bits: the receiver hands over what was
   given, from the first character on and nothing else; and all of it, if the last request
   reaches past the last character and the groups come out even.
   */
  method Relay(rs: seq<Request>, rxN: nat) returns (got: Str)
    requires 1 <= rxN <= 8 && forall r :: r in rs ==> 1 <= r.n <= 8
    ensures got <= Given(rs)
    ensures Drains(rs) && Total(rs) % rxN == 0 ==> got == Given(rs)
  {
    hide Window, Read, Line, Chars, Given, Total, P.Cut, H.Flatten;
    var tx := new Transmitter();
    var bits: seq<bool> := [];
    NoRequests(rs);
    for i := 0 to |rs|
      invariant fresh(tx) && tx.Inv() && bits == tx.emitted && Chars(tx.items) + tx.source == Given(rs[..i])
      invariant |bits| == Total(rs[..i])
      invariant Drains(rs[..i]) ==> tx.source == [] && tx.bit == 0
    {
      GivenSnoc(rs, i);
      TotalSnoc(rs, i);
      var more := Serve(tx, rs[i], Given(rs[..i]));
      bits := bits + more;
    }
    assert rs[..|rs|] == rs;
    var rx := new Receiver();
    rx.PutBits(rxN, P.Cut(bits, rxN));
    got := rx.got;
    Arrives(rx.received, bits, rxN, Window(tx.data, tx.bit), tx.items, tx.source);
  }

  lemma NoRequests(rs: seq<Request>)
    ensures Given(rs[..0]) == [] && Total(rs[..0]) == 0 && Chars([]) == []
  {}

  lemma Arrives(seen: seq<bool>, bits: seq<bool>, n: nat, pending: seq<bool>, items: seq<Item>, source: Str)
    requires 1 <= n <= 8 && seen == [] + H.Flatten(P.Groups(P.Cut(bits, n), n)) && bits + pending == Line(items)
    ensures Read(seen) <= Chars(items) + source
    ensures |bits| % n == 0 && pending == [] && source == [] ==> Read(seen) == Chars(items) + source
  {
    hide Read, Line, Chars, P.Cut, H.Flatten;
    P.CutBits(bits, n);
    assert seen <= bits;
    var tail := bits[|seen|..] + pending;
    assert bits == seen + bits[|seen|..];
    assert seen + tail == Line(items);
    SeenPrefix(seen, tail, items);
    if |bits| % n == 0 {
      CutExact(bits, n);
      assert tail == pending;
    }
  }
}
