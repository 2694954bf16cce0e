/** The transmit ring: characters written by the terminal side, read by the protocol side. */
module Xmit {
  import opened Words

  /** The place of the `i`-th character of a ring of `size` places that starts at `tail`. */
  function Slot(tail: nat, i: nat, size: nat): (s: nat)
    requires tail < size && i <= size
    ensures s < size
  {
    if tail + i < size then tail + i else tail + i - size
  }

  lemma SlotWrap(tail: nat, i: nat, size: nat)
    requires tail < size && i <= size
    ensures (tail + i) % size == Slot(tail, i, size)
  {
    if tail + i >= size {
      assert tail + i == size + (tail + i - size);
      WrapOnce(tail + i - size, size);
    }
  }

  lemma WrapOnce(d: nat, size: nat)
    requires d < size
    ensures (size + d) % size == d
  {}

  function Max(a: nat, b: nat): nat { if a < b then b else a }

  function Min(a: nat, b: nat): nat { if a < b then a else b }

  class Xmit {
    const buf: array<byte>
    var head: nat
    var tail: nat
    var count: nat

    ghost predicate Inv()
      reads this
    {
      tail < buf.Length && count <= buf.Length && head == Slot(tail, count, buf.Length)
    }

    /** The characters in the ring, oldest first. */
    ghost function Contents(): (s: Str)
      reads this, buf
      requires Inv()
      ensures |s| == count
    {
      seq(count, i requires 0 <= i < count reads this, buf requires Inv() => buf[Slot(tail, i, buf.Length)])
    }

    constructor (size: nat)
      requires size > 0
      ensures Inv() && fresh(buf) && buf.Length == size && Contents() == []
    {
      buf := new byte[size](i => 0);
      head, tail, count := 0, 0, 0;
    }

    /** Copy characters in as far as the end of the buffer. */
    method Fill(s: Str)
      requires Inv() && |s| <= buf.Length - count && |s| <= buf.Length - head
      modifies this, buf
      ensures Inv() && Contents() == old(Contents()) + s
    {
      var j := 0;
      while j < |s|
        invariant j <= |s| && head == old(head) && tail == old(tail) && count == old(count)
        invariant forall i :: 0 <= i < j ==> buf[head + i] == s[i]
        invariant forall i :: 0 <= i < buf.Length && !(head <= i < head + j) ==> buf[i] == old(buf[i])
      {
        buf[head + j] := s[j];
        j := j + 1;
      }
      SlotWrap(head, |s|, buf.Length);
      count := count + |s|;
      head := (head + |s|) % buf.Length;
    }

    /** Copy characters out as far as the end of the buffer. */
    method Drain(n: nat) returns (s: Str)
      requires Inv() && n <= count && n <= buf.Length - tail
      modifies this
      ensures Inv() && |s| == n && s + Contents() == old(Contents())
    {
      s := buf[tail..tail + n];
      SlotWrap(tail, n, buf.Length);
      count := count - n;
      tail := (tail + n) % buf.Length;
    }

    /** Accept as much as there is room for, in at most two pieces around the end of the buffer. */
    method Write(s: Str) returns (k: nat)
      requires Inv()
      modifies this, buf
      ensures Inv() && k == Min(|s|, buf.Length - old(count)) && Contents() == old(Contents()) + s[..k]
    {
      hide Slot, Contents;
      k := 0;
      while k < |s|
        invariant Inv() && k <= |s| && count == old(count) + k && Contents() == old(Contents()) + s[..k]
        decreases |s| - k
      {
        var cnt := Min(Min(|s| - k, buf.Length - count), buf.Length - head);
        if cnt == 0 {
          break;
        }
        Fill(s[k..k + cnt]);
        assert s[..k + cnt] == s[..k] + s[k..k + cnt];
        k := k + cnt;
      }
    }

    /** Give out up to `n` of the oldest characters. */
    method GetChars(n: nat) returns (s: Str)
      requires Inv()
      modifies this
      ensures Inv() && |s| == Min(n, old(count)) && s + Contents() == old(Contents())
    {
      hide Slot, Contents;
      s := [];
      while |s| < n
        invariant Inv() && |s| <= n && |s| + count == old(count) && s + Contents() == old(Contents())
        decreases n - |s|
      {
        var cnt := Min(Min(n - |s|, count), buf.Length - tail);
        if cnt == 0 {
          break;
        }
        ghost var had := s + Contents();
        var more := Drain(cnt);
        assert had == s + (more + Contents()) == (s + more) + Contents();
        s := s + more;
      }
    }
  }
}
