/** LAPM frames as octets: address, control field and, for numbered frames, sequence numbers. */
module LapmWire {
  import opened Words
  import opened Lapm
  import X = Xid

  function SuperCode(s: Super): byte
  {
    match s
    case RR => 0x01
    case RNR => 0x05
    case REJ => 0x09
    case SREJ => 0x0d
  }

  function UnnumCode(u: Unnum): byte
  {
    match u
    case SABME => 0x6f
    case DM => 0x0f
    case DISCONNECT => 0x43
    case UA => 0x63
    case XID(_, _) => 0xaf
    case OTHER => 0x03
  }

  function Bit(b: bool): nat { if b then 1 else 0 }

  /** The fields fit the octets. */
  predicate Sendable(f: Frame)
  {
    && f.addr < 256
    && (f.I? ==> f.ns < 128 && f.nr < 128)
    && (f.S? ==> f.nr < 128)
  }

  function Octets(f: Frame): (b: Str)
    requires Sendable(f)
    ensures |b| >= 2 && (!f.U? ==> |b| >= 3)
  {
    match f
    case I(addr, ns, nr, pf, info) => [addr, 2 * ns, 2 * nr + Bit(pf)] + info
    case S(addr, super, nr, pf) => [addr, SuperCode(super), 2 * nr + Bit(pf)]
    case U(addr, unnum, pf) =>
      [addr, UnnumCode(unnum) + 16 * Bit(pf)] + (if unnum.XID? then [unnum.fi] + unnum.groups else [])
  }

  /** The control octet of an unnumbered frame without the poll/final bit, which is bit 4. */
  function Kind(b: Str): (k: nat)
    requires |b| >= 2
  {
    var ctrl: nat := b[1];
    ctrl - 16 * Bit(ctrl / 16 % 2 == 1)
  }

  /** Numbered frames and XID frames have a third octet. */
  predicate Complete(b: Str)
  {
    |b| >= 2 && (b[1] % 4 != 3 || Kind(b) == 0xaf ==> |b| >= 3)
  }

  /** Supervisory frames of unknown kind are ignored, like SREJ. */
  function Parse(b: Str): (f: Frame)
    requires Complete(b)
    ensures Sendable(f)
  {
    var ctrl: nat := b[1];
    if ctrl % 2 == 0 then I(b[0], ctrl / 2, b[2] / 2, b[2] % 2 == 1, b[3..])
    else if ctrl % 4 == 1 then
      S(b[0], if ctrl == 0x01 then RR else if ctrl == 0x05 then RNR else if ctrl == 0x09 then REJ else SREJ,
        b[2] / 2, b[2] % 2 == 1)
    else
      var pf := ctrl / 16 % 2 == 1;
      var kind := Kind(b);
      U(b[0], if kind == 0x6f then SABME else if kind == 0x0f then DM else if kind == 0x43 then DISCONNECT
              else if kind == 0x63 then UA else if kind == 0xaf then XID(b[2], b[3..]) else OTHER, pf)
  }

  /** The octets of each kind of frame. */
  lemma FrameOctets(addr: byte, ns: nat, nr: nat, info: Str, fi: byte, groups: Str)
    requires ns < 128 && nr < 128
    ensures Octets(I(addr, ns, nr, false, info)) == [addr, 2 * ns, 2 * nr] + info
    ensures Octets(I(addr, ns, nr, true, info)) == [addr, 2 * ns, 2 * nr + 1] + info
    ensures Octets(S(addr, RR, nr, false)) == [addr, 0x01, 2 * nr]
    ensures Octets(S(addr, RR, nr, true)) == [addr, 0x01, 2 * nr + 1]
    ensures Octets(S(addr, RNR, nr, false)) == [addr, 0x05, 2 * nr]
    ensures Octets(S(addr, RNR, nr, true)) == [addr, 0x05, 2 * nr + 1]
    ensures Octets(S(addr, REJ, nr, false)) == [addr, 0x09, 2 * nr]
    ensures Octets(S(addr, REJ, nr, true)) == [addr, 0x09, 2 * nr + 1]
    ensures Octets(S(addr, SREJ, nr, false)) == [addr, 0x0d, 2 * nr]
    ensures Octets(U(addr, SABME, false)) == [addr, 0x6f] && Octets(U(addr, SABME, true)) == [addr, 0x7f]
    ensures Octets(U(addr, DM, false)) == [addr, 0x0f] && Octets(U(addr, DM, true)) == [addr, 0x1f]
    ensures Octets(U(addr, DISCONNECT, false)) == [addr, 0x43] && Octets(U(addr, DISCONNECT, true)) == [addr, 0x53]
    ensures Octets(U(addr, UA, false)) == [addr, 0x63] && Octets(U(addr, UA, true)) == [addr, 0x73]
    ensures Octets(U(addr, XID(fi, groups), false)) == [addr, 0xaf, fi] + groups
  {
    assert [addr, 0xaf] + ([fi] + groups) == [addr, 0xaf, fi] + groups;
    assert [addr, 0x7f] + [] == [addr, 0x7f];
  }

  /** Every frame that the link sends is understood as what it is. */
  lemma ParseOctets(f: Frame)
    requires Sendable(f)
    ensures Complete(Octets(f)) && Parse(Octets(f)) == f
  {
    var b := Octets(f);
    match f
    case I(addr, ns, nr, pf, info) =>
      var x := 2 * nr + Bit(pf);
      assert x / 2 == nr && x % 2 == Bit(pf);
      assert (2 * ns) / 2 == ns && (2 * ns) % 2 == 0;
      assert b[3..] == info;
    case S(addr, super, nr, pf) =>
      var x := 2 * nr + Bit(pf);
      assert x / 2 == nr && x % 2 == Bit(pf);
    case U(addr, unnum, pf) =>
      if unnum.XID? {
        assert b[2] == unnum.fi && b[3..] == unnum.groups;
      }
  }

  /** The XID frames that the link sends are those of Xid.dfy, and it makes of one received what is said there. */
  lemma XidOctets(p: Peer, addr: byte, held: byte)
    requires PeerInv(p)
    ensures var f := U(addr, XID(X.FI_GENERAL, X.Offer(SizesOf(p), p.terms.comp)), false);
            Octets(f) == X.Build(addr, SizesOf(p), p.terms.comp)
    ensures forall b: Str :: Complete(b) && Parse(b).U? && Parse(b).unnum.XID? ==>
              X.Heed(SizesOf(p), Parse(b).unnum.fi, Parse(b).unnum.groups) == X.Receive(SizesOf(p), b, held)
  {
    hide X.Heed, X.Offer, PeerInv;
  }
}
