/**
 Parameter negotiation by XID frames (ITU-T V.42, section 8.10): how the frame is built, how it
 is taken apart, and what two ends hold after a command and its response.
 */
module Xid {
  import opened Words

  /** The four sizes of the link that are negotiated. */
  datatype Sizes = Sizes(txInfo: nat, rxInfo: nat, txWin: nat, rxWin: nat)

  /** What the private group says about compression. */
  datatype Comp = Comp(request: nat, dictSize: nat, maxString: nat)

  const NO_COMP := Comp(0, 512, 6)
  const DFLT_INFO := 128
  const DFLT_WIN := 15
  const FI_GENERAL: byte := 0x82
  const FRAME_U_XID: byte := 0xaf
  const GI_PARAMS: byte := 0x80
  const GI_PRIVATE: byte := 0xf0

  // ----- settling on a value -----

  /** The new value of a parameter of which the other end proposes `value`. */
  function Settle(param: nat, value: nat, dflt: nat): nat
  {
    if (value < dflt && param >= dflt) || (value >= dflt && param < dflt) then dflt
    else if (value < dflt && param < value) || (value >= dflt && param > value) then value
    else param
  }

  /** `x` lies between `y` and `z`. */
  predicate Between(x: nat, y: nat, z: nat)
  {
    y <= x <= z || z <= x <= y
  }

  /** The outcome is the middle one of the two proposals and the default. */
  lemma SettleIsMiddle(a: nat, b: nat, d: nat, m: nat)
    ensures Settle(a, b, d) == m <==> (m in {a, b, d} && Between(m, a, b) && Between(m, a, d) && Between(m, b, d))
  {}

  /** Any number of proposals settle on the same value in any order. */
  lemma SettleIsSemilattice(a: nat, b: nat, c: nat, d: nat)
    ensures Settle(a, b, d) == Settle(b, a, d) && Settle(a, a, d) == a && Settle(a, d, d) == d
    ensures Settle(Settle(a, b, d), c, d) == Settle(a, Settle(b, c, d), d)
  {}

  function SettleAll(p: Sizes, v: Sizes): Sizes
  {
    Sizes(Settle(p.txInfo, v.txInfo, DFLT_INFO), Settle(p.rxInfo, v.rxInfo, DFLT_INFO),
          Settle(p.txWin, v.txWin, DFLT_WIN), Settle(p.rxWin, v.rxWin, DFLT_WIN))
  }

  // ----- taking a frame apart -----

  /** The value of a big-endian field, in 32 bits. */
  function BeVal(s: Str): (v: nat)
    ensures v < 0x1_0000_0000
  {
    if s == [] then 0 else (BeVal(s[..|s| - 1]) * 256 + s[|s| - 1]) % 0x1_0000_0000
  }

  function LeVal(s: Str): (v: nat)
    ensures v < 0x1_0000_0000
  {
    if s == [] then 0 else (LeVal(s[1..]) * 256 + s[0]) % 0x1_0000_0000
  }

  method GetBeVal(s: Str) returns (v: nat)
    ensures v == BeVal(s)
  {
    v := 0;
    for i := 0 to |s|
      invariant v == BeVal(s[..i])
    {
      assert s[..i + 1][..i] == s[..i];
      v := (v * 256 + s[i]) % 0x1_0000_0000;
    }
    assert s[..|s|] == s;
  }

  /** One parameter of the first group. */
  function Apply(p: Sizes, pid: byte, v: Str): Sizes
  {
    if pid == 5 then p.(txInfo := Settle(p.txInfo, BeVal(v) / 8, DFLT_INFO))
    else if pid == 6 then p.(rxInfo := Settle(p.rxInfo, BeVal(v) / 8, DFLT_INFO))
    else if pid == 7 then p.(txWin := Settle(p.txWin, BeVal(v), DFLT_WIN))
    else if pid == 8 then p.(rxWin := Settle(p.rxWin, BeVal(v), DFLT_WIN))
    else p
  }

  /** One parameter of the private group. */
  function ApplyPrivate(c: Comp, pid: byte, v: Str): Comp
  {
    if pid == 1 then c.(request := LeVal(v) % 256)
    else if pid == 2 then c.(dictSize := BeVal(v))
    else if pid == 3 then c.(maxString := BeVal(v))
    else c
  }

  function ParamLen(s: Str): nat
    requires |s| >= 2
  {
    s[1]
  }

  function GroupLen(s: Str): nat
    requires |s| >= 3
  {
    var high: nat, low: nat := s[1], s[2];
    high * 256 + low
  }

  /** A parameter that does not fit what is left ends the group. */
  predicate HasParam(s: Str)
  {
    |s| >= 2 && |s| >= 2 + ParamLen(s)
  }

  function Params(p: Sizes, s: Str): Sizes
    decreases |s|
  {
    if !HasParam(s) then p else Params(Apply(p, s[0], s[2..2 + ParamLen(s)]), s[2 + ParamLen(s)..])
  }

  function Privates(c: Comp, s: Str): Comp
    decreases |s|
  {
    if !HasParam(s) then c else Privates(ApplyPrivate(c, s[0], s[2..2 + ParamLen(s)]), s[2 + ParamLen(s)..])
  }

  predicate HasGroup(s: Str)
  {
    |s| >= 3 && |s| >= 3 + GroupLen(s)
  }

  function Groups(p: Sizes, c: Comp, s: Str): (Sizes, Comp)
    decreases |s|
  {
    if !HasGroup(s) then (p, c)
    else
      var n := 3 + GroupLen(s);
      var body := s[3..n];
      Groups(if s[0] == GI_PARAMS then Params(p, body) else p,
             if s[0] == GI_PRIVATE then Privates(c, body) else c, s[n..])
  }

  method ParseParams(p0: Sizes, buf: Str) returns (p: Sizes)
    ensures p == Params(p0, buf)
  {
    p := p0;
    var s := buf;
    while |s| >= 2 && |s| >= 2 + ParamLen(s)
      invariant Params(p0, buf) == Params(p, s)
      decreases |s|
    {
      var v := s[2..2 + ParamLen(s)];
      var pval := GetBeVal(v);
      match s[0] {
        case 5 => p := p.(txInfo := Settle(p.txInfo, pval / 8, DFLT_INFO));
        case 6 => p := p.(rxInfo := Settle(p.rxInfo, pval / 8, DFLT_INFO));
        case 7 => p := p.(txWin := Settle(p.txWin, pval, DFLT_WIN));
        case 8 => p := p.(rxWin := Settle(p.rxWin, pval, DFLT_WIN));
        case _ =>
      }
      s := s[2 + ParamLen(s)..];
    }
  }

  method ParsePrivateParams(c0: Comp, buf: Str) returns (c: Comp)
    ensures c == Privates(c0, buf)
  {
    c := c0;
    var s := buf;
    while |s| >= 2 && |s| >= 2 + ParamLen(s)
      invariant Privates(c0, buf) == Privates(c, s)
      decreases |s|
    {
      var v := s[2..2 + ParamLen(s)];
      var pval := GetBeVal(v);
      match s[0] {
        case 1 => c := c.(request := LeVal(v) % 256);
        case 2 => c := c.(dictSize := pval);
        case 3 => c := c.(maxString := pval);
        case _ =>
      }
      s := s[2 + ParamLen(s)..];
    }
  }

  datatype Parsed = Refused | Parsed(sizes: Sizes, comp: Comp)

  /** What the groups behind a format identifier make of the sizes held; another identifier is refused. */
  function Heed(p: Sizes, fi: byte, groups: Str): Parsed
  {
    if fi != FI_GENERAL then Refused
    else
      var (q, c) := Groups(p, NO_COMP, groups);
      Parsed(q, c)
  }

  /** The identifier of a frame; `held` is what the receive buffer holds behind a frame of two octets. */
  function Identifier(frame: Str, held: byte): byte
  {
    if |frame| >= 3 then frame[2] else held
  }

  function Receive(p: Sizes, frame: Str, held: byte): Parsed
  {
    Heed(p, Identifier(frame, held), if |frame| >= 3 then frame[3..] else [])
  }

  method RxXid(p0: Sizes, frame: Str, held: byte) returns (r: Parsed)
    requires |frame| >= 2
    ensures r == Receive(p0, frame, held)
  {
    if Identifier(frame, held) != FI_GENERAL {
      return Refused;
    }
    var p, c := p0, NO_COMP;
    var s := if |frame| >= 3 then frame[3..] else [];
    ghost var groups := s;
    while |s| >= 3 && |s| >= 3 + GroupLen(s)
      invariant Groups(p0, NO_COMP, groups) == Groups(p, c, s)
      decreases |s|
    {
      var n := 3 + GroupLen(s);
      if s[0] == GI_PARAMS {
        p := ParseParams(p, s[3..n]);
      } else if s[0] == GI_PRIVATE {
        c := ParsePrivateParams(c, s[3..n]);
      }
      s := s[n..];
    }
    r := Parsed(p, c);
  }

  // ----- building a frame -----

  function Two(v: nat): Str
  {
    [v / 256 % 256, v % 256]
  }

  function Field(pid: byte, v: Str): Str
    requires |v| < 256
  {
    [pid, |v|] + v
  }

  function Group(gid: byte, body: Str): Str
    requires |body| < 65536
  {
    [gid, |body| / 256, |body| % 256] + body
  }

  function ParamBody(p: Sizes): Str
  {
    Field(3, [0x8a, 0x89, 0x00]) + Field(5, Two(8 * p.txInfo)) + Field(6, Two(8 * p.rxInfo))
    + Field(7, [p.txWin % 256]) + Field(8, [p.rxWin % 256])
  }

  function PrivateBody(c: Comp): Str
  {
    Field(0, [0x56, 0x34, 0x32]) + Field(1, [c.request % 256]) + Field(2, Two(c.dictSize))
      + Field(3, [c.maxString % 256])
  }

  /** The groups that an end sends: its sizes, and its compression parameters if it has any. */
  function Offer(p: Sizes, c: Comp): (g: Str)
    ensures |g| <= 40
  {
    Group(GI_PARAMS, ParamBody(p)) + (if c.request != 0 then Group(GI_PRIVATE, PrivateBody(c)) else [])
  }

  function Build(addr: byte, p: Sizes, c: Comp): (f: Str)
    ensures |f| >= 3 && f[2] == FI_GENERAL && |f| <= 43
  {
    [addr, FRAME_U_XID, FI_GENERAL] + Offer(p, c)
  }

  // ----- round trip -----

  lemma ParamsField(p: Sizes, pid: byte, v: Str, rest: Str)
    requires |v| < 256
    ensures Params(p, Field(pid, v) + rest) == Params(Apply(p, pid, v), rest)
  {
    var s := Field(pid, v) + rest;
    assert s[0] == pid && s[1] == |v| && s[2..2 + ParamLen(s)] == v && s[2 + ParamLen(s)..] == rest;
  }

  lemma PrivatesField(c: Comp, pid: byte, v: Str, rest: Str)
    requires |v| < 256
    ensures Privates(c, Field(pid, v) + rest) == Privates(ApplyPrivate(c, pid, v), rest)
  {
    var s := Field(pid, v) + rest;
    assert s[0] == pid && s[1] == |v| && s[2..2 + ParamLen(s)] == v && s[2 + ParamLen(s)..] == rest;
  }

  lemma OneValue(x: byte)
    ensures BeVal([x]) == x && LeVal([x]) == x
  {
    assert BeVal([x][..0]) == 0 && LeVal([x][1..]) == 0;
  }

  lemma TwoValue(v: nat)
    ensures BeVal(Two(v)) == v % 65536
  {
    var s := Two(v);
    OneValue(s[0]);
    assert s[..1] == [s[0]];
    Digits(v);
  }

  lemma Digits(v: nat)
    ensures v / 256 % 256 * 256 + v % 256 == v % 65536 < 65536
  {}

  /** What fits the fields of the frame. */
  function Carried(p: Sizes): Sizes
  {
    Sizes(p.txInfo % 8192, p.rxInfo % 8192, p.txWin % 256, p.rxWin % 256)
  }

  lemma Eighth(v: nat)
    ensures 8 * v % 65536 / 8 == v % 8192
  {}

  lemma ParamBodyParses(p: Sizes, q: Sizes)
    ensures Params(q, ParamBody(p)) == SettleAll(q, Carried(p))
  {
    hide Settle, Field, Params, BeVal, Two;
    var v5, v6, v7, v8 := Two(8 * p.txInfo), Two(8 * p.rxInfo), [p.txWin % 256], [p.rxWin % 256];
    TwoSize(8 * p.txInfo);
    TwoSize(8 * p.rxInfo);
    var r8 := Field(8, v8);
    var r7 := Field(7, v7) + r8;
    var r6 := Field(6, v6) + r7;
    var r5 := Field(5, v5) + r6;
    assert ParamBody(p) == Field(3, [0x8a, 0x89, 0x00]) + r5;
    assert r8 == r8 + [];
    ParamsField(q, 3, [0x8a, 0x89, 0x00], r5);
    ParamsField(q, 5, v5, r6);
    var q5 := Apply(q, 5, v5);
    ParamsField(q5, 6, v6, r7);
    var q6 := Apply(q5, 6, v6);
    ParamsField(q6, 7, v7, r8);
    var q7 := Apply(q6, 7, v7);
    ParamsField(q7, 8, v8, []);
    ParamsEnd(Apply(q7, 8, v8));
    TwoValue(8 * p.txInfo);
    TwoValue(8 * p.rxInfo);
    Eighth(p.txInfo);
    Eighth(p.rxInfo);
    OneValue(p.txWin % 256);
    OneValue(p.rxWin % 256);
  }

  lemma TwoSize(v: nat)
    ensures |Two(v)| == 2
  {}

  lemma ParamsEnd(p: Sizes)
    ensures Params(p, []) == p
  {}

  lemma PrivatesEnd(c: Comp)
    ensures Privates(c, []) == c
  {}

  lemma PrivateBodyParses(c: Comp, d: Comp)
    ensures Privates(d, PrivateBody(c)) == Comp(c.request % 256, c.dictSize % 65536, c.maxString % 256)
  {
    hide Field, Privates, BeVal, LeVal, Two;
    var v1, v2, v3 := [c.request % 256], Two(c.dictSize), [c.maxString % 256];
    TwoSize(c.dictSize);
    var r3 := Field(3, v3);
    var r2 := Field(2, v2) + r3;
    var r1 := Field(1, v1) + r2;
    assert PrivateBody(c) == Field(0, [0x56, 0x34, 0x32]) + r1;
    assert r3 == r3 + [];
    PrivatesField(d, 0, [0x56, 0x34, 0x32], r1);
    PrivatesField(d, 1, v1, r2);
    var d1 := ApplyPrivate(d, 1, v1);
    PrivatesField(d1, 2, v2, r3);
    var d2 := ApplyPrivate(d1, 2, v2);
    PrivatesField(d2, 3, v3, []);
    PrivatesEnd(ApplyPrivate(d2, 3, v3));
    TwoValue(c.dictSize);
    OneValue(c.request % 256);
    OneValue(c.maxString % 256);
  }

  lemma GroupStep(p: Sizes, c: Comp, gid: byte, body: Str, rest: Str)
    requires |body| < 65536
    ensures Groups(p, c, Group(gid, body) + rest) ==
            Groups(if gid == GI_PARAMS then Params(p, body) else p,
                   if gid == GI_PRIVATE then Privates(c, body) else c, rest)
  {
    hide Params, Privates;
    var s := Group(gid, body) + rest;
    var n := 3 + |body|;
    assert s[0] == gid && s[1] == |body| / 256 && s[2] == |body| % 256 && s[3..n] == body && s[n..] == rest;
  }

  lemma BodySizes(p: Sizes, c: Comp)
    ensures |ParamBody(p)| == 19 && |PrivateBody(c)| == 15
  {}

  /** Taking a built frame apart gives back what fits its fields. */
  lemma BuildParses(addr: byte, p: Sizes, c: Comp, q: Sizes, held: byte)
    ensures Receive(q, Build(addr, p, c), held) ==
            Parsed(SettleAll(q, Carried(p)), CarriedComp(c))
  {
    hide ParamBody, PrivateBody, Params, Privates, SettleAll, Groups, Group;
    BodySizes(p, c);
    var second := if c.request != 0 then Group(GI_PRIVATE, PrivateBody(c)) else [];
    assert Build(addr, p, c)[3..] == Group(GI_PARAMS, ParamBody(p)) + second;
    GroupStep(q, NO_COMP, GI_PARAMS, ParamBody(p), second);
    ParamBodyParses(p, q);
    var q1 := SettleAll(q, Carried(p));
    NoGroups(q1, NO_COMP);
    if c.request != 0 {
      assert second == second + [];
      GroupStep(q1, NO_COMP, GI_PRIVATE, PrivateBody(c), []);
      PrivateBodyParses(c, NO_COMP);
      NoGroups(q1, Privates(NO_COMP, PrivateBody(c)));
    }
  }

  lemma NoGroups(p: Sizes, c: Comp)
    ensures Groups(p, c, []) == (p, c)
  {}

  // ----- command and response -----

  /** Both ends after `a` has sent a command and `b` its response. */
  function Negotiate(a: Sizes, ca: Comp, b: Sizes, cb: Comp, addr: byte, held: byte): (r: (Sizes, Sizes))
  {
    BuildParses(addr, a, ca, b, held);
    var b1 := Receive(b, Build(addr, a, ca), held).sizes;
    BuildParses(addr, b1, cb, a, held);
    (Receive(a, Build(addr, b1, cb), held).sizes, b1)
  }

  /** One parameter through fields that hold `a` modulo `m`: when both ends agree. */
  predicate Agreeable(a: nat, b: nat, dflt: nat, m: nat)
    requires m > 0
  {
    a < m || a % m >= dflt || b >= dflt
  }

  /** `a1` is what arrives of `a`. */
  lemma SettleAgrees(a: nat, b: nat, d: nat, m: nat, a1: nat)
    requires d < m && a1 < m && (a < m ==> a1 == a)
    ensures var b1 := Settle(b, a1, d);
            b1 < m && (Settle(a, b1, d) == b1 <==> (a < m || a1 >= d || b >= d))
  {}

  /**
   After the exchange both ends hold the same sizes if and only if no size of the first end
   overflows its field to something below the default while the second end is below it too;
   so always, if the first end's sizes fit their fields.
   */
  lemma NegotiationAgrees(a: Sizes, ca: Comp, b: Sizes, cb: Comp, addr: byte, held: byte)
    ensures var (a1, b1) := Negotiate(a, ca, b, cb, addr, held);
            a1 == b1 <==>
              (&& Agreeable(a.txInfo, b.txInfo, DFLT_INFO, 8192) && Agreeable(a.rxInfo, b.rxInfo, DFLT_INFO, 8192)
               && Agreeable(a.txWin, b.txWin, DFLT_WIN, 256) && Agreeable(a.rxWin, b.rxWin, DFLT_WIN, 256))
    ensures a == Carried(a) ==> Negotiate(a, ca, b, cb, addr, held) == (SettleAll(a, b), SettleAll(a, b))
  {
    hide Settle, Receive, Build;
    BuildParses(addr, a, ca, b, held);
    var b1 := SettleAll(b, Carried(a));
    BuildParses(addr, b1, cb, a, held);
    SettleAgrees(a.txInfo, b.txInfo, DFLT_INFO, 8192, a.txInfo % 8192);
    SettleAgrees(a.rxInfo, b.rxInfo, DFLT_INFO, 8192, a.rxInfo % 8192);
    SettleAgrees(a.txWin, b.txWin, DFLT_WIN, 256, a.txWin % 256);
    SettleAgrees(a.rxWin, b.rxWin, DFLT_WIN, 256, a.rxWin % 256);
    assert Carried(b1) == b1;
    SettleIsSemilattice(a.txInfo, b.txInfo, 0, DFLT_INFO);
    SettleIsSemilattice(a.rxInfo, b.rxInfo, 0, DFLT_INFO);
    SettleIsSemilattice(a.txWin, b.txWin, 0, DFLT_WIN);
    SettleIsSemilattice(a.rxWin, b.rxWin, 0, DFLT_WIN);
  }

  /** The sizes of both ends after the exchange, as an offer and its counter-offer. */
  function Settled(a: Sizes, b: Sizes): (Sizes, Sizes)
  {
    var b1 := SettleAll(b, Carried(a));
    (SettleAll(a, Carried(b1)), b1)
  }

  lemma SettledAgrees(a: Sizes, b: Sizes)
    requires a == Carried(a)
    ensures Settled(a, b) == (SettleAll(a, b), SettleAll(a, b))
  {
    NegotiationAgrees(a, NO_COMP, b, NO_COMP, 0, 0);
    BuildParses(0, a, NO_COMP, b, 0);
    BuildParses(0, SettleAll(b, Carried(a)), NO_COMP, a, 0);
  }

  /** The compression parameters that arrive when `c` are offered: without a request nothing is said. */
  function CarriedComp(c: Comp): Comp
  {
    if c.request == 0 then NO_COMP else Comp(c.request % 256, c.dictSize % 65536, c.maxString % 256)
  }

  /** What a peer makes of the groups that the other end offers. */
  lemma OfferHeeded(p: Sizes, c: Comp, q: Sizes)
    ensures var r := Heed(q, FI_GENERAL, Offer(p, c));
            r.Parsed? && r.sizes == SettleAll(q, Carried(p)) && r.comp == CarriedComp(c)
  {
    hide SettleAll, Heed, Offer;
    BuildParses(0, p, c, q, 0);
    var f := Build(0, p, c);
    assert f[3..] == Offer(p, c);
  }

  /** An information size of 8192 reads as 0 at the other end, and the two ends part. */
  lemma OverflowDisagrees(ca: Comp, cb: Comp, addr: byte, held: byte)
    ensures var (a1, b1) := Negotiate(Sizes(8192, 128, 15, 15), ca, Sizes(64, 128, 15, 15), cb, addr, held);
            a1.txInfo == 128 && b1.txInfo == 64
  {
    hide Receive, Build;
    var a, b := Sizes(8192, 128, 15, 15), Sizes(64, 128, 15, 15);
    BuildParses(addr, a, ca, b, held);
    var b1 := SettleAll(b, Carried(a));
    BuildParses(addr, b1, cb, a, held);
  }

  // ----- what negotiation keeps -----

  /** A proposal never takes the window below the default, nor further below it. */
  lemma SettleKeeps(a: nat, b: nat, d: nat)
    ensures Settle(a, b, d) >= if a < d then a else d
  {}

  lemma {:induction false} ParamsKeepWindow(p: Sizes, s: Str, w: nat)
    requires w <= DFLT_WIN && w <= p.txWin
    ensures w <= Params(p, s).txWin
    decreases |s|
  {
    hide Settle;
    if HasParam(s) {
      var v := s[2..2 + ParamLen(s)];
      SettleKeeps(p.txWin, BeVal(v), DFLT_WIN);
      ParamsKeepWindow(Apply(p, s[0], v), s[2 + ParamLen(s)..], w);
    }
  }

  lemma {:induction false} GroupsKeepWindow(p: Sizes, c: Comp, s: Str, w: nat)
    requires w <= DFLT_WIN && w <= p.txWin
    ensures w <= Groups(p, c, s).0.txWin
    decreases |s|
  {
    hide Params, Privates;
    if HasGroup(s) {
      var n := 3 + GroupLen(s);
      var body := s[3..n];
      ParamsKeepWindow(p, body, w);
      GroupsKeepWindow(if s[0] == GI_PARAMS then Params(p, body) else p,
                       if s[0] == GI_PRIVATE then Privates(c, body) else c, s[n..], w);
    }
  }

  /** No XID frame, whatever it says, makes the send window smaller than it was and than the default. */
  lemma HeedKeepsWindow(p: Sizes, fi: byte, groups: Str)
    ensures var r := Heed(p, fi, groups);
            r.Parsed? ==> r.sizes.txWin >= if p.txWin < DFLT_WIN then p.txWin else DFLT_WIN
  {
    hide Groups;
    GroupsKeepWindow(p, NO_COMP, groups, if p.txWin < DFLT_WIN then p.txWin else DFLT_WIN);
  }

  /**
   The compression parameters after those of the other end: none if either end wants none; a
   dictionary or string length that does not suit the compressor is not taken over.
   */
  function UpdateComp(mine: Comp, theirs: Comp): Comp
  {
    if theirs.request == 0 || mine.request == 0 then mine.(request := 0)
    else if 512 <= theirs.dictSize <= mine.dictSize && 6 <= theirs.maxString <= 34 then theirs
    else mine.(request := theirs.request)
  }

  /** A dictionary and a string length that an end with `mine` can take over. */
  predicate Suits(theirs: Comp, mine: Comp)
  {
    512 <= theirs.dictSize <= mine.dictSize && 6 <= theirs.maxString <= 34
  }

  predicate SameSizes(a: Comp, b: Comp)
  {
    a.dictSize == b.dictSize && a.maxString == b.maxString
  }

  /**
   Compression is off afterwards exactly if either end wants none; a dictionary never grows, and
   sizes outside the limits are never taken over.
   */
  lemma NeverTooLarge(mine: Comp, theirs: Comp)
    ensures var r := UpdateComp(mine, theirs);
            && (r.request == 0 <==> mine.request == 0 || theirs.request == 0)
            && (r.request != 0 ==> r.request == theirs.request)
            && r.dictSize <= mine.dictSize
            && (SameSizes(r, mine) || (SameSizes(r, theirs) && Suits(theirs, mine) && r.request != 0))
  {}

  /** The compression parameters of both ends after a command and its response. */
  function SettledComp(a: Comp, b: Comp): (Comp, Comp)
  {
    var b1 := UpdateComp(b, CarriedComp(a));
    (UpdateComp(a, CarriedComp(b1)), b1)
  }

  /** The caller's sizes, as they arrive, suit the other end, or the other end's the caller, or they are the same. */
  predicate Compatible(a: Comp, b: Comp)
  {
    || Suits(CarriedComp(a), b)
    || (b.dictSize < 65536 && b.maxString < 256 && Suits(b, a))
    || SameSizes(a, b)
  }

  /**
   After the exchange both ends always have the same request, and none if the caller proposes none
   or one that reads as none, or the other end wants none.  With compression on they also have the
   same dictionary size and string length if and only if what arrives of the caller's suits the
   other end, or the other end's fit their fields and suit the caller, or both were the same before.
   */
  lemma CompAgrees(a: Comp, b: Comp)
    ensures var (a1, b1) := SettledComp(a, b);
            && a1.request == b1.request
            && (a1.request == 0 <==> a.request % 256 == 0 || b.request == 0)
            && (a1.request != 0 ==> (a1 == b1 <==> Compatible(a, b)))
  {
    SmallModulo(a.request);
    SmallModulo(a.dictSize);
    SmallModulo(a.maxString);
    SmallModulo(b.maxString);
    SmallModulo(b.dictSize);
  }

  lemma SmallModulo(n: nat)
    ensures n % 256 < 256 && n % 256 % 256 == n % 256 && n % 65536 % 65536 == n % 65536 < 65536
  {}

  /** Two ends that both compress with sizes of their own: neither size suits the other end. */
  lemma CompParts()
    ensures SettledComp(Comp(3, 2048, 32), Comp(3, 1024, 40)) == (Comp(3, 2048, 32), Comp(3, 1024, 40))
  {}

  // ----- an example -----

  /** The command of a caller with the default sizes and compression in both directions. */
  lemma FrameOctets()
    ensures Build(0x03, Sizes(128, 128, 15, 15), Comp(3, 512, 32)) ==
            [0x03, 0xaf, 0x82]
            + (([0x80, 0x00, 0x13]
                + [0x03, 0x03, 0x8a, 0x89, 0x00, 0x05, 0x02, 0x04, 0x00, 0x06, 0x02, 0x04, 0x00,
                   0x07, 0x01, 0x0f, 0x08, 0x01, 0x0f])
               + ([0xf0, 0x00, 0x0f]
                  + [0x00, 0x03, 0x56, 0x34, 0x32, 0x01, 0x01, 0x03, 0x02, 0x02, 0x02, 0x00, 0x03, 0x01, 0x20]))
  {
    hide ParamBody, PrivateBody, Group;
    ParamOctets();
    PrivateOctets();
    GroupOctets(GI_PARAMS, ParamBody(Sizes(128, 128, 15, 15)));
    GroupOctets(GI_PRIVATE, PrivateBody(Comp(3, 512, 32)));
  }

  lemma GroupOctets(gid: byte, body: Str)
    requires |body| < 256
    ensures Group(gid, body) == [gid, 0, |body|] + body
  {}

  lemma ParamOctets()
    ensures ParamBody(Sizes(128, 128, 15, 15)) ==
            [0x03, 0x03, 0x8a, 0x89, 0x00, 0x05, 0x02, 0x04, 0x00, 0x06, 0x02, 0x04, 0x00,
             0x07, 0x01, 0x0f, 0x08, 0x01, 0x0f]
  {
    assert Two(1024) == [4, 0];
  }

  lemma PrivateOctets()
    ensures PrivateBody(Comp(3, 512, 32)) ==
            [0x00, 0x03, 0x56, 0x34, 0x32, 0x01, 0x01, 0x03, 0x02, 0x02, 0x02, 0x00, 0x03, 0x01, 0x20]
  {
    assert Two(512) == [2, 0];
  }
}
