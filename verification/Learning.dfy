/**
 What the string matcher learns and what it sends, in terms of strings alone: after a string, the
 string extended by the character that follows is in the dictionary; and each string sent is the
 longest that may be.
 */
module Learning {
  import opened Words
  import D = Words
  import opened Bits
  import opened Codec
  import opened Lossless
  import opened Histories

  // ----- what one character adds -----

  /**
   The dictionary after the string of entry `n` has been followed by `c`: it holds the extended string, at
   the slot that was free if it is new, and has gained nothing else; a new string costs at most one entry,
   which nothing extends and whose slot is free afterwards.
   */
  ghost predicate Learned(w: Words, n: nat, c: byte, w1: Words)
    requires Has(w, n)
  {
    var x := StrOf(w, n) + [c];
    if x in w.codes then w1 == w
    else
      && x in w1.codes && w1.codes[x] == w.nextFree && w1.nextFree != w.nextFree && w1.nextFree != n
      && (forall y :: y in w1.codes && y != x ==> y in w.codes && w1.codes[y] == w.codes[y])
      && (forall y :: y in w.codes && y !in w1.codes ==> w.codes[y] == w1.nextFree)
      && (forall y, d: byte :: y in w.codes && y !in w1.codes ==> y + [d] !in w1.codes)
  }

  lemma AddLearns(w: Words, l: Limits, n: nat, c: byte)
    requires CanAdd(w, l, n, c)
    ensures Learned(w, n, c, Add(w, l, n, c))
  {
    var s := StrOf(w, n) + [c];
    ExtensionFits(w, l, n, c);
    AddSpec(w, l, n, c);
    Recycled(w, l, n, c);
    var w1, r := Insert(w, w.nextFree, s), Add(w, l, n, c);
    RemovedCodes(w1, r.nextFree);
    forall y, d: byte | y in w.codes && y !in r.codes
      ensures y + [d] !in r.codes
    {
      LeafNotExtended(w1, r.nextFree, y, d);
    }
  }

  lemma RemovedCodes(w: Words, n: nat)
    requires Bijective(w)
    ensures forall y :: y in Remove(w, n).codes <==> y in w.codes && w.codes[y] != n
    ensures forall y :: y in Remove(w, n).codes ==> Remove(w, n).codes[y] == w.codes[y]
  {}

  lemma LeafNotExtended(w: Words, n: nat, y: Str, d: byte)
    requires Bijective(w) && y in w.codes && w.codes[y] == n && FIRST_FREE <= n && !HasChild(w, n)
    ensures y + [d] !in w.codes
  {}

  /** The slot that a new string frees is the first one after its own, going round, that nothing extends. */
  lemma FreesFirstLeaf(w: Words, l: Limits, n: nat, c: byte, k: nat)
    requires CanAdd(w, l, n, c) && FIRST_FREE <= k < l.size && k != w.nextFree
    requires D.Turn(l, w.nextFree, k) < D.Turn(l, w.nextFree, Add(w, l, n, c).nextFree)
    ensures HasChild(Insert(w, w.nextFree, StrOf(w, n) + [c]), k)
  {
    ScanFirst(Insert(w, w.nextFree, StrOf(w, n) + [c]), l, w.nextFree, w.nextFree, k);
  }

  lemma {:induction false} ScanFirst(w: Words, l: Limits, n: nat, stop: nat, k: nat)
    requires l.Valid() && FIRST_FREE <= n < l.size && FIRST_FREE <= stop < l.size && FIRST_FREE <= k < l.size && k != n
    requires D.Turn(l, n, k) < D.Turn(l, n, Scan(w, l, n, stop))
    ensures HasChild(w, k)
    decreases D.Turn(l, n, stop)
  {
    var m := NextSlot(l, n);
    if m != stop && HasChild(w, m) {
      if k != m {
        ScanFirst(w, l, m, stop, k);
      }
    }
  }

  /** The entry added last, once `c` has settled what was pending. */
  ghost function Newest(k: Matcher, c: byte): nat
    requires MatcherInv(k)
  {
    if k.updateAt != 0 && StrOf(k.w, k.updateAt) + [c] !in k.w.codes then k.w.nextFree else k.lastAdded
  }

  /** A string that may be collected: a single character, or one stored, but not under the number `newest`. */
  predicate Usable(w: Words, newest: nat, z: Str)
  {
    |z| == 1 || (z in w.codes && w.codes[z] != newest)
  }

  function CodeOf(w: Words, z: Str): nat
    requires |z| == 1 || z in w.codes
  {
    if |z| == 1 then z[0] + FIRST_ENTRY else w.codes[z]
  }

  /** The pending string extended by the next character. */
  lemma ResolveLearns(k: Matcher, c: byte)
    requires MatcherInv(k)
    ensures var r := Resolve(k, c);
            && r.updateAt == 0 && r.lastMatched == k.lastMatched && r.lastAdded == Newest(k, c)
            && (if k.updateAt == 0 then r.w == k.w else Learned(k.w, k.updateAt, c, r.w))
            && Matched(r) == Matched(k)
  {
    hide Learned, Valid, Add;
    if k.updateAt != 0 {
      MatchIsStored(k.w, k.l, k.updateAt, c);
      if Match(k.w, k.updateAt, c) == 0 {
        CanAddPending(k, c);
        AddLearns(k.w, k.l, k.updateAt, c);
      } else {
        KnownLearned(k.w, k.updateAt, c);
      }
    }
  }

  lemma KnownLearned(w: Words, n: nat, c: byte)
    requires Has(w, n) && StrOf(w, n) + [c] in w.codes
    ensures Learned(w, n, c, w)
  {}

  lemma CanAddPending(k: Matcher, c: byte)
    requires MatcherInv(k) && k.updateAt != 0 && Match(k.w, k.updateAt, c) == 0
    ensures CanAdd(k.w, k.l, k.updateAt, c) && Has(k.w, k.updateAt)
  {}

  lemma MatchIsStored(w: Words, l: Limits, n: nat, c: byte)
    requires Valid(w, l) && Has(w, n)
    ensures var x := StrOf(w, n) + [c];
            (Match(w, n, c) != 0 <==> x in w.codes) && (x in w.codes ==> Match(w, n, c) == w.codes[x])
  {}

  /** The match goes on with `c` exactly if the longer string is usable. */
  lemma EndsMeans(k: Matcher, c: byte)
    requires MatcherInv(k)
    ensures var z := Matched(k) + [c];
            && (Ends(k, c) <==> !Usable(k.w, k.lastAdded, z))
            && (!Ends(k, c) ==> Match(k.w, k.lastMatched, c) == CodeOf(k.w, z))
            && (Match(k.w, k.lastMatched, c) == 0 <==> |z| > 1 && z !in k.w.codes)
            && (k.lastMatched == 0 <==> Matched(k) == [])
  {
    if k.lastMatched == 0 {
      RootGoesOn(k, c);
      assert [] + [c] == [c];
    } else {
      MatchIsStored(k.w, k.l, k.lastMatched, c);
      MatchedLength(k);
    }
  }

  lemma MatchedLength(k: Matcher)
    requires MatcherInv(k) && k.lastMatched != 0
    ensures 1 <= |Matched(k)| < k.l.maxStr
  {}

  /** The dictionary after the encoder has been offered a character. */
  lemma StepLearns(e: Enc, c: byte)
    requires EncInv(e)
    ensures var w1 := Step(e, c).e.k.w;
            if e.k.updateAt == 0 then w1 == e.k.w else Learned(e.k.w, e.k.updateAt, c, w1)
  {
    hide Resolve, MatcherInv, PutData, Learned, Ends;
    ResolveLearns(e.k, c);
  }

  /**
   Greedy matching.  The string collected goes on with the character offered if and only if the longer
   string is usable, and is complete with it only at the maximum length.  A string that ends before
   the character is left waiting for it, unless the extended string is known already.
   */
  lemma StepGreedy(e: Enc, c: byte)
    requires EncInv(e)
    ensures var o, m := Step(e, c), Matched(e.k);
            var k1, z, newest := o.e.k, m + [c], Newest(e.k, c);
            && (o.taken <==> Usable(k1.w, newest, z))
            && (o.taken ==>
                  && (o.ended <==> |z| == e.k.l.maxStr) && Matched(k1) == (if o.ended then [] else z)
                  && k1.updateAt == 0 && k1.lastAdded == newest)
            && (!o.taken ==>
                  && o.ended && Matched(k1) == [] && m != []
                  && (z in k1.w.codes ==> k1.updateAt == 0 && k1.lastAdded == 0)
                  && (z !in k1.w.codes ==> k1.updateAt != 0 && StrOf(k1.w, k1.updateAt) == m && k1.lastAdded == newest))
  {
    hide Resolve, PutData, Learned, Ends, Valid, Usable, Match;
    ResolveLearns(e.k, c);
    var k := Resolve(e.k, c);
    EndsMeans(k, c);
    if !Ends(k, c) {
      PushMeans(k, c);
    } else {
      UsableSingle(k.w, k.lastAdded, Matched(k) + [c]);
    }
  }

  lemma UsableSingle(w: Words, newest: nat, z: Str)
    ensures |z| == 1 ==> Usable(w, newest, z)
  {}

  lemma PushMeans(k: Matcher, c: byte)
    requires MatcherInv(k) && k.updateAt == 0 && !Ends(k, c)
    ensures var r, z := Push(k, c), Matched(k) + [c];
            && r.w == k.w && r.lastAdded == k.lastAdded && r.updateAt == 0 && |z| <= k.l.maxStr
            && (r.lastMatched == 0 <==> |z| == k.l.maxStr) && Matched(r) == (if r.lastMatched == 0 then [] else z)
  {}

  // ----- what is sent -----

  /** A string goes out when it ends: its codeword, or those of its characters that are still to be sent. */
  lemma StepSends(e: Enc, c: byte)
    requires EncInv(e)
    ensures var o := Step(e, c);
            var y := if o.taken then Matched(e.k) + [c] else Matched(e.k);
            && (!o.ended ==> o.out == [] && o.e == e.(k := o.e.k, str := e.str + [c]))
            && (o.ended && e.mode.Transparent? ==>
                  o.out == Escaped(if o.taken then e.str + [c] else e.str, e.esc) && o.e.p == e.p)
            && (o.ended && e.mode.Compressed? ==>
                  && (|y| == 1 || y in o.e.k.w.codes) && CodeOf(o.e.k.w, y) < 32768
                  && (o.e.p, o.out) == PutData(e.p, CodeOf(o.e.k.w, y)))
            && (o.ended ==> o.e.str == []) && o.e.mode == e.mode
  {
    hide Resolve, PutData, Learned, Ends, Valid, Usable, Match, Push, Cut, Escaped;
    ResolveLearns(e.k, c);
    var k := Resolve(e.k, c);
    EndsMeans(k, c);
    if Ends(k, c) {
      EndedMatch(k, c);
      HasBound(k, k.lastMatched);
      StoredCode(k);
    } else {
      PushMeans(k, c);
      MatchSpec(k.w, k.l, k.lastMatched, c);
      UsableCode(k.w, k.lastAdded, Matched(k) + [c]);
      HasBound(k, Match(k.w, k.lastMatched, c));
    }
    assert Cut(k, c).w == k.w by { CutKeeps(k, c); }
  }

  lemma CutKeeps(k: Matcher, c: byte)
    requires MatcherInv(k) && k.updateAt == 0
    ensures Cut(k, c).w == k.w
  {}

  lemma EndedMatch(k: Matcher, c: byte)
    requires MatcherInv(k) && Ends(k, c)
    ensures k.lastMatched != 0 && Has(k.w, k.lastMatched)
  {
    if k.lastMatched == 0 {
      RootGoesOn(k, c);
    }
  }

  lemma StoredCode(k: Matcher)
    requires MatcherInv(k) && k.lastMatched != 0
    ensures var m := Matched(k); (|m| == 1 || m in k.w.codes) && CodeOf(k.w, m) == k.lastMatched
  {}

  lemma UsableCode(w: Words, newest: nat, z: Str)
    requires Usable(w, newest, z)
    ensures |z| == 1 || z in w.codes
  {}

  // ----- one string -----

  /** What collecting one string comes to: `used` characters are taken; `ended` unless the buffer ends first. */
  datatype Span = Span(e: Enc, out: Str, used: nat, ended: bool)

  ghost function Collect(e: Enc, s: Str): (r: Span)
    requires EncInv(e)
    ensures EncInv(r.e) && r.used <= |s|
    decreases |s|
  {
    if s == [] then Span(e, [], 0, false)
    else
      var o := Step(e, s[0]);
      if o.ended then Span(o.e, o.out, if o.taken then 1 else 0, true)
      else
        var r := Collect(o.e, s[1..]);
        Span(r.e, o.out + r.out, 1 + r.used, r.ended)
  }

  /** Inside a string: nothing is pending, and the dictionary does not change. */
  ghost predicate Inside(e: Enc)
  {
    EncInv(e) && e.k.updateAt == 0
  }

  /** The string may be sent: it and everything it begins with is usable. */
  predicate Sendable(w: Words, newest: nat, z: Str)
  {
    forall i :: 0 < i <= |z| ==> Usable(w, newest, z[..i])
  }

  lemma InsideStep(e: Enc, c: byte)
    requires Inside(e)
    ensures Newest(e.k, c) == e.k.lastAdded && Step(e, c).e.k.w == e.k.w
  {
    hide Resolve, MatcherInv, Step;
    StepLearns(e, c);
  }

  lemma SendableSnoc(w: Words, newest: nat, m: Str, c: byte)
    requires Sendable(w, newest, m) && Usable(w, newest, m + [c])
    ensures Sendable(w, newest, m + [c])
  {
    hide Usable;
    var z := m + [c];
    forall i | 0 < i <= |z|
      ensures Usable(w, newest, z[..i])
    {
      if i <= |m| {
        assert z[..i] == m[..i];
      } else {
        assert z[..i] == z;
      }
    }
  }

  /**
   What the string is in the end, in the dictionary `w`, when `m` has been collected of it and `s` follows:
   `r.used` characters more, and either the buffer is used up, or the string has the maximum length, or the
   next character would make it one that may not be sent; then it waits for that character, unless the
   extension is known.
   */
  ghost predicate Greedy(w: Words, newest: nat, max: nat, m: Str, s: Str, r: Span)
    requires EncInv(r.e) && r.used <= |s|
  {
    var y := m + s[..r.used];
    && r.e.k.w == w && Sendable(w, newest, y) && |y| <= max
    && (!r.ended ==> r.used == |s| && Matched(r.e.k) == y && r.out == [] && r.e.k.updateAt == 0)
    && (r.ended && |y| == max ==> r.e.k.updateAt == 0)
    && (r.ended && |y| < max ==> r.used < |s| && Stopped(w, newest, y, s[r.used], r.e.k))
  }

  /** The string `y` has ended before `c`. */
  ghost predicate Stopped(w: Words, newest: nat, y: Str, c: byte, k: Matcher)
  {
    && !Usable(w, newest, y + [c])
    && if y + [c] in w.codes then k.updateAt == 0
       else k.updateAt != 0 && Has(w, k.updateAt) && StrOf(w, k.updateAt) == y
  }

  lemma GreedyCons(w: Words, newest: nat, max: nat, m: Str, c: byte, s: Str, r: Span)
    requires EncInv(r.e) && r.used <= |s| && Greedy(w, newest, max, m + [c], s, r)
    ensures Greedy(w, newest, max, m, [c] + s, r.(used := r.used + 1))
  {
    hide EncInv, MatcherInv, Sendable, Stopped;
    assert m + ([c] + s)[..r.used + 1] == (m + [c]) + s[..r.used];
    if r.used < |s| {
      assert ([c] + s)[r.used + 1] == s[r.used];
    }
  }

  lemma GreedyEnd(e: Enc, m: Str, newest: nat)
    requires Inside(e) && m == Matched(e.k) && Sendable(e.k.w, newest, m)
    ensures Greedy(e.k.w, newest, e.k.l.maxStr, m, [], Span(e, [], 0, false))
  {
    hide Sendable, Stopped;
    EncMatcher(e);
    MatchedBound(e.k);
    assert m + [][..0] == m;
  }

  lemma GreedyStops(w: Words, newest: nat, max: nat, m: Str, s: Str, r: Span)
    requires EncInv(r.e) && s != [] && r.ended && r.e.k.w == w && r.used <= 1
    requires r.used == 0 ==> Sendable(w, newest, m) && |m| < max && Stopped(w, newest, m, s[0], r.e.k)
    requires r.used == 1 ==> Sendable(w, newest, m + [s[0]]) && |m| + 1 == max && r.e.k.updateAt == 0
    ensures Greedy(w, newest, max, m, s, r)
  {
    hide EncInv, MatcherInv, Sendable, Stopped;
    assert m + s[..0] == m && s[..1] == [s[0]];
  }

  /** The character offered ends the string, or completes it. */
  lemma StepStops(e: Enc, c: byte)
    requires Inside(e) && Step(e, c).ended && Sendable(e.k.w, e.k.lastAdded, Matched(e.k))
    ensures var o, m, w, newest := Step(e, c), Matched(e.k), e.k.w, e.k.lastAdded;
            && o.e.k.w == w && |m| < e.k.l.maxStr
            && (o.taken ==> Sendable(w, newest, m + [c]) && |m| + 1 == e.k.l.maxStr && o.e.k.updateAt == 0)
            && (!o.taken ==> Stopped(w, newest, m, c, o.e.k))
  {
    hide MatcherInv, Step, Usable, Sendable, Learned, EncInv;
    EncMatcher(e);
    MatchedBound(e.k);
    InsideStep(e, c);
    StepGreedy(e, c);
    if Step(e, c).taken {
      SendableSnoc(e.k.w, e.k.lastAdded, Matched(e.k), c);
    } else {
      PendingHas(Step(e, c).e);
    }
  }

  lemma PendingHas(e: Enc)
    requires EncInv(e)
    ensures e.k.updateAt != 0 ==> Has(e.k.w, e.k.updateAt)
  {}

  /** The character offered goes into the string. */
  lemma StepGoesOn(e: Enc, c: byte)
    requires Inside(e) && !Step(e, c).ended && Sendable(e.k.w, e.k.lastAdded, Matched(e.k))
    ensures var o, m := Step(e, c), Matched(e.k);
            && o.taken && o.out == [] && Inside(o.e) && o.e.k.w == e.k.w && o.e.k.lastAdded == e.k.lastAdded
            && o.e.k.l == e.k.l && Matched(o.e.k) == m + [c] && Sendable(e.k.w, e.k.lastAdded, m + [c])
  {
    hide MatcherInv, Step, Usable, Sendable, Learned, EncInv;
    EncMatcher(e);
    InsideStep(e, c);
    StepGreedy(e, c);
    StepSends(e, c);
    StepLimits(e, c);
    SendableSnoc(e.k.w, e.k.lastAdded, Matched(e.k), c);
  }

  lemma {:induction false} CollectGreedy(e: Enc, s: Str)
    requires Inside(e) && Sendable(e.k.w, e.k.lastAdded, Matched(e.k))
    ensures Greedy(e.k.w, e.k.lastAdded, e.k.l.maxStr, Matched(e.k), s, Collect(e, s))
    decreases |s|
  {
    hide MatcherInv, Step, Usable, Sendable, Learned, EncInv, Greedy, Stopped;
    EncMatcher(e);
    var w, newest, m := e.k.w, e.k.lastAdded, Matched(e.k);
    var r := Collect(e, s);
    if s == [] {
      GreedyEnd(e, m, newest);
    } else {
      var o := Step(e, s[0]);
      if o.ended {
        StepStops(e, s[0]);
        GreedyStops(w, newest, e.k.l.maxStr, m, s, r);
      } else {
        StepGoesOn(e, s[0]);
        CollectGreedy(o.e, s[1..]);
        var r1 := Collect(o.e, s[1..]);
        assert [] + r1.out == r1.out && [s[0]] + s[1..] == s;
        GreedyCons(w, newest, e.k.l.maxStr, m, s[0], s[1..], r1);
      }
    }
  }

  lemma MatchedBound(k: Matcher)
    requires MatcherInv(k)
    ensures |Matched(k)| < k.l.maxStr
  {}

  lemma StepLimits(e: Enc, c: byte)
    requires EncInv(e)
    ensures Step(e, c).e.k.l == e.k.l
  {}

  /** What goes out when the string `y` has ended, of which `part` had not been sent. */
  ghost predicate Sent(e: Enc, y: Str, part: Str, e1: Enc, out: Str)
    requires PackerInv(e.p)
  {
    && e1.mode == e.mode
    && (e.mode.Transparent? ==> out == Escaped(part, e.esc))
    && (e.mode.Compressed? ==>
          && (|y| == 1 || y in e1.k.w.codes) && CodeOf(e1.k.w, y) < 32768
          && (e1.p, out) == PutData(e.p, CodeOf(e1.k.w, y)))
  }

  lemma PackerOf(e: Enc)
    requires EncInv(e)
    ensures PackerInv(e.p) && MatcherInv(e.k)
  {}

  lemma StepSent(e: Enc, c: byte)
    requires Inside(e) && Step(e, c).ended
    ensures PackerInv(e.p) && MatcherInv(e.k)
    ensures var o := Step(e, c);
            Sent(e, if o.taken then Matched(e.k) + [c] else Matched(e.k),
                 if o.taken then e.str + [c] else e.str, o.e, o.out)
  {
    hide MatcherInv, Step, Usable, PutData, Escaped, CodeOf, PackerInv, EncInv;
    PackerOf(e);
    StepSends(e, c);
  }

  lemma {:induction false} CollectSends(e: Enc, s: Str)
    requires Inside(e)
    ensures PackerInv(e.p) && MatcherInv(e.k)
    ensures var r := Collect(e, s);
            r.ended ==> Sent(e, Matched(e.k) + s[..r.used], e.str + s[..r.used], r.e, r.out)
    decreases |s|
  {
    hide MatcherInv, Step, Usable, PackerInv, EncInv, Sent, Learned;
    PackerOf(e);
    if s != [] {
      var c := s[0];
      var o := Step(e, c);
      if o.ended {
        StepSent(e, c);
        EndsHere(Matched(e.k), s);
        EndsHere(e.str, s);
      } else {
        StepInside(e, c);
        var r := Collect(o.e, s[1..]);
        CollectSends(o.e, s[1..]);
        GoesOn(Matched(e.k), s, r.used);
        GoesOn(e.str, s, r.used);
        assert [] + r.out == r.out;
        if r.ended {
          SameSent(e, o.e, Matched(e.k) + s[..1 + r.used], e.str + s[..1 + r.used], r.e, r.out);
        }
      }
    }
  }

  lemma GoesOn(m: Str, s: Str, n: nat)
    requires s != [] && n < |s|
    ensures (m + [s[0]]) + s[1..][..n] == m + s[..1 + n]
  {
    assert s[..1 + n] == [s[0]] + s[1..][..n];
  }

  lemma EndsHere(m: Str, s: Str)
    requires s != []
    ensures m + s[..0] == m && m + s[..1] == m + [s[0]]
  {}

  lemma SameSent(e: Enc, e0: Enc, y: Str, part: Str, e1: Enc, out: Str)
    requires PackerInv(e.p) && PackerInv(e0.p) && Sent(e0, y, part, e1, out)
    requires e0.p == e.p && e0.mode == e.mode && e0.esc == e.esc
    ensures Sent(e, y, part, e1, out)
  {}

  lemma StepInside(e: Enc, c: byte)
    requires Inside(e) && !Step(e, c).ended
    ensures var o := Step(e, c);
            && o.taken && o.out == [] && Inside(o.e) && o.e.str == e.str + [c]
            && o.e.p == e.p && o.e.mode == e.mode && o.e.esc == e.esc
    ensures MatcherInv(e.k) && MatcherInv(Step(e, c).e.k) && Matched(Step(e, c).e.k) == Matched(e.k) + [c]
  {
    hide MatcherInv, Step, Usable, Learned, EncInv;
    EncMatcher(e);
    InsideStep(e, c);
    StepGreedy(e, c);
    StepSends(e, c);
    EncMatcher(Step(e, c).e);
  }

  /** After a string: the test, and the rest of the buffer. */
  ghost function Onward(r: Span, s: Str, choices: seq<bool>): (Enc, Str)
    requires EncInv(r.e) && r.used <= |s|
  {
    var (e1, out1) := if choices != [] && choices[0] then Switch(r.e) else (r.e, []);
    var (e2, out2) := Encode(e1, s[r.used..], if choices == [] then [] else choices[1..]);
    (e2, (r.out + out1) + out2)
  }

  lemma OnwardCons(c: byte, s: Str, r: Span, choices: seq<bool>)
    requires EncInv(r.e) && r.used <= |s|
    ensures Onward(Span(r.e, [] + r.out, r.used + 1, r.ended), [c] + s, choices) == Onward(r, s, choices)
  {
    hide EncInv, Switch, Encode;
    assert ([c] + s)[r.used + 1..] == s[r.used..];
    assert [] + r.out == r.out;
  }

  lemma EncodeStep(e: Enc, s: Str, choices: seq<bool>)
    requires EncInv(e) && s != []
    ensures var o := Step(e, s[0]);
            && (o.ended ==> Encode(e, s, choices)
                            == Onward(Span(o.e, o.out, if o.taken then 1 else 0, true), s, choices))
            && (!o.ended ==> o.taken && o.out == [])
            && (!o.ended && |s| == 1 ==> Encode(e, s, choices) == Onward(Span(o.e, [], 1, false), s, choices))
            && (!o.ended && |s| > 1 ==> Encode(e, s, choices) == Encode(o.e, s[1..], choices))
  {
    hide EncInv, Switch, Step;
    NotTakenEnds(e, s[0]);
    StepSends(e, s[0]);
    var t := Round(e, s, choices);
    var (e1, out) := Encode(t.e, t.rest, t.choices);
    assert s[0..] == s;
    assert [] + out == out;
  }

  /** Encoding a buffer is collecting one string after the other, with a test after each. */
  lemma {:induction false} CollectEncodes(e: Enc, s: Str, choices: seq<bool>)
    requires EncInv(e) && s != []
    ensures Encode(e, s, choices) == Onward(Collect(e, s), s, choices)
    decreases |s|
  {
    hide Step, Switch, EncInv, Encode, Onward;
    var o := Step(e, s[0]);
    EncodeStep(e, s, choices);
    if !o.ended {
      var r1 := Collect(o.e, s[1..]);
      assert [s[0]] + s[1..] == s;
      if |s| > 1 {
        CollectEncodes(o.e, s[1..], choices);
        OnwardCons(s[0], s[1..], r1, choices);
      } else {
        assert s[1..] == [] && r1 == Span(o.e, [], 0, false);
        assert o.out + r1.out == r1.out;
      }
    }
  }

  lemma NotTakenEnds(e: Enc, c: byte)
    requires EncInv(e)
    ensures !Step(e, c).taken ==> Step(e, c).ended
  {}

  /** The first character of a string is always taken, and does not complete it. */
  lemma FirstTaken(e: Enc, s: Str) returns (o: Offer)
    requires EncInv(e) && e.k.lastMatched == 0 && s != []
    ensures o == Step(e, s[0]) && !o.ended && o.out == [] && Inside(o.e) && o.e.mode == e.mode && o.e.esc == e.esc
    ensures o.e.p == e.p && o.e.str == Matched(o.e.k) == [s[0]] && o.e.k.lastAdded == Newest(e.k, s[0])
    ensures o.e.k.l == e.k.l && o.e.k.l.maxStr >= 6
    ensures if e.k.updateAt == 0 then o.e.k.w == e.k.w else Learned(e.k.w, e.k.updateAt, s[0], o.e.k.w)
    ensures var r, r1 := Collect(e, s), Collect(o.e, s[1..]);
            r == Span(r1.e, r1.out, r1.used + 1, r1.ended) && s[..r.used] == [s[0]] + s[1..][..r1.used]
  {
    hide MatcherInv, Step, Usable, PutData, Escaped, CodeOf, Learned, EncInv;
    EncMatcher(e);
    NothingMatched(e);
    var c := s[0];
    o := Step(e, c);
    StepLearns(e, c);
    StepGreedy(e, c);
    UsableSingle(o.e.k.w, Newest(e.k, c), [c]);
    assert [] + [c] == [c];
    SizeBound(e.k);
    StepSends(e, c);
    StepLimits(e, c);
    var r1 := Collect(o.e, s[1..]);
    assert [] + r1.out == r1.out;
  }

  /**
   The strings sent.  From where a string starts, with `s` still to be encoded: first the string before it
   is learned, extended by the first character.  Then the string collected is the longest beginning of `s`
   that may be sent, up to the maximum length; and if it is shorter than the maximum, it waits for the
   character after it, unless that extension is known.
   */
  lemma LongestString(e: Enc, s: Str)
    requires EncInv(e) && e.k.lastMatched == 0 && s != []
    ensures MatcherInv(e.k)
    ensures var r, newest, max := Collect(e, s), Newest(e.k, s[0]), e.k.l.maxStr;
            var y, w := s[..r.used], r.e.k.w;
            && (if e.k.updateAt == 0 then w == e.k.w else Learned(e.k.w, e.k.updateAt, s[0], w))
            && 1 <= r.used <= max && Sendable(w, newest, y)
            && (!r.ended ==> y == s)
            && (r.ended ==> forall j :: r.used < j <= |s| && j <= max ==> !Sendable(w, newest, s[..j]))
            && (r.ended && r.used == max ==> r.e.k.updateAt == 0)
            && (r.ended && r.used < max ==> r.used < |s| && Stopped(w, newest, y, s[r.used], r.e.k))
  {
    hide MatcherInv, Step, Usable, Sendable, Learned, EncInv, Collect, Stopped, Greedy;
    EncMatcher(e);
    var o := FirstTaken(e, s);
    var newest, max, r1 := Newest(e.k, s[0]), e.k.l.maxStr, Collect(o.e, s[1..]);
    SingleSendable(o.e.k.w, newest, s[0]);
    CollectGreedy(o.e, s[1..]);
    assert [] + [s[0]] == [s[0]] && [s[0]] + s[1..] == s;
    GreedyCons(o.e.k.w, newest, max, [], s[0], s[1..], r1);
    GreedyMeans(o.e.k.w, newest, max, s, r1.(used := r1.used + 1));
  }

  lemma GreedyMeans(w: Words, newest: nat, max: nat, s: Str, r: Span)
    requires EncInv(r.e) && r.used <= |s| && Greedy(w, newest, max, [], s, r)
    ensures var y := s[..r.used];
            && r.e.k.w == w && Sendable(w, newest, y) && r.used <= max && (!r.ended ==> y == s)
            && (r.ended ==> forall j :: r.used < j <= |s| && j <= max ==> !Sendable(w, newest, s[..j]))
            && (r.ended && r.used == max ==> r.e.k.updateAt == 0)
            && (r.ended && r.used < max ==> r.used < |s| && Stopped(w, newest, y, s[r.used], r.e.k))
  {
    hide EncInv, MatcherInv, Sendable, Usable;
    var y := s[..r.used];
    assert [] + y == y;
    if r.ended && r.used < max {
      assert y + [s[r.used]] == s[..r.used + 1];
      forall j | r.used < j <= |s| && j <= max
        ensures !Sendable(w, newest, s[..j])
      {
        assert s[..j][..r.used + 1] == s[..r.used + 1];
        NotSendable(w, newest, s[..j], r.used + 1);
      }
    }
  }

  /** A string goes out when it has ended: as its codeword, or as its characters. */
  lemma StringGoesOut(e: Enc, s: Str)
    requires EncInv(e) && e.k.lastMatched == 0 && s != []
    ensures PackerInv(e.p)
    ensures var r := Collect(e, s);
            if r.ended then Sent(e, s[..r.used], s[..r.used], r.e, r.out) else r.out == []
  {
    hide MatcherInv, Step, Usable, Sendable, Learned, EncInv, Collect, Sent, PackerInv, Greedy;
    PackerOf(e);
    var o := FirstTaken(e, s);
    SingleSendable(o.e.k.w, Newest(e.k, s[0]), s[0]);
    CollectGreedy(o.e, s[1..]);
    CollectSends(o.e, s[1..]);
    var r := Collect(e, s);
    if r.ended {
      SameSent(e, o.e, s[..r.used], s[..r.used], r.e, r.out);
    } else {
      GreedyQuiet(o.e, s[1..]);
    }
  }

  lemma GreedyQuiet(e: Enc, s: Str)
    requires Inside(e) && MatcherInv(e.k)
    requires var r := Collect(e, s);
             !r.ended && Greedy(e.k.w, e.k.lastAdded, e.k.l.maxStr, Matched(e.k), s, r)
    ensures Collect(e, s).out == []
  {
    hide EncInv, MatcherInv, Sendable, Stopped, Collect;
  }

  lemma NotSendable(w: Words, newest: nat, z: Str, i: nat)
    requires 0 < i <= |z| && !Usable(w, newest, z[..i])
    ensures !Sendable(w, newest, z)
  {}

  lemma SingleSendable(w: Words, newest: nat, c: byte)
    ensures Sendable(w, newest, [c])
  {}

  lemma NothingMatched(e: Enc)
    requires EncInv(e) && e.k.lastMatched == 0
    ensures Matched(e.k) == [] && e.str == []
  {}

  lemma SizeBound(k: Matcher)
    requires MatcherInv(k)
    ensures k.l.maxStr >= 6
  {}

  // ----- where strings are cut short -----

  /** A string that is cut short, by a change of mode or a flush, waits for the character after it. */
  lemma CutShortWaits(e: Enc)
    requires EncInv(e)
    ensures MatcherInv(e.k)
    ensures var k1 := SendPending(e).0.k;
            && k1.w == e.k.w && k1.lastAdded == e.k.lastAdded && k1.lastMatched == 0
            && if Matched(e.k) == [] then k1.updateAt == e.k.updateAt
               else k1.updateAt != 0 && StrOf(e.k.w, k1.updateAt) == Matched(e.k)
    ensures var k1 := Switch(e).0.k;
            && k1.w == e.k.w && k1.lastMatched == 0 && k1.updateAt == SendPending(e).0.k.updateAt
            && k1.lastAdded == if e.mode.Compressed? then 0 else e.k.lastAdded
    ensures e.mode.Compressed? && e.k.updateAt == 0 ==> FlushEnc(e).0.k == SendPending(e).0.k
    ensures e.mode.Transparent? || e.k.updateAt != 0 ==> FlushEnc(e).0.k == e.k
  {
    hide Send, PutAligned, Valid;
    if e.k.lastMatched != 0 {
      MatchedLength(e.k);
    }
  }

  // ----- the decoder -----

  /**
   The decoder learns from a codeword: the string received before is extended by the first character of
   this one; and this one waits for the next, if it is shorter than the maximum.
   */
  lemma CodewordTeaches(d: Dec, cw: nat)
    requires DecInv(d) && d.mode.Compressed? && Receive(d, cw).Ok?
    ensures var r := Receive(d, cw);
            && Has(d.k.w, cw) && r.x == StrOf(d.k.w, cw) && r.x != []
            && (if d.k.updateAt == 0 then r.d.k.w == d.k.w else Learned(d.k.w, d.k.updateAt, r.x[0], r.d.k.w))
            && (if |r.x| == d.k.l.maxStr then r.d.k.updateAt == 0
                else r.d.k.updateAt != 0 && Has(r.d.k.w, r.d.k.updateAt) && StrOf(r.d.k.w, r.d.k.updateAt) == r.x)
  {
    hide Resolve, MatcherInv, Learned, Valid;
    StrBounds(d.k, cw);
    ResolveLearns(d.k, StrOf(d.k.w, cw)[0]);
    DecMatcher(d, cw);
    LearnKeeps(d.k, StrOf(d.k.w, cw)[0], cw);
    NotRoot(d.k, cw);
  }

  lemma NotRoot(k: Matcher, n: nat)
    requires MatcherInv(k) && Has(k.w, n)
    ensures n >= FIRST_ENTRY
  {}

  lemma DecMatcher(d: Dec, cw: nat)
    requires DecInv(d) && d.mode.Compressed? && Receive(d, cw).Ok?
    ensures var r := Receive(d, cw);
            Learn(d.k, r.x[0]).w == d.k.w || cw != Learn(d.k, r.x[0]).w.nextFree
  {}

  /**
   And from a character in transparent mode: whatever was pending, or the string collected if it ends
   before the character, is extended by it.
   */
  lemma LiteralTeaches(k: Matcher, c: byte)
    requires MatcherInv(k)
    ensures var r, m := Feed(k, c), Matched(k);
            && (k.updateAt != 0 ==> Learned(k.w, k.updateAt, c, r.w) && Matched(r) == [c])
            && (k.updateAt == 0 && m == [] ==> r.w == k.w && Matched(r) == [c])
            && (k.updateAt == 0 && m != [] && Usable(k.w, k.lastAdded, m + [c]) ==>
                  r.w == k.w && Matched(r) == if |m| + 1 == k.l.maxStr then [] else m + [c])
            && (k.updateAt == 0 && m != [] && !Usable(k.w, k.lastAdded, m + [c]) ==>
                  Has(k.w, k.lastMatched) && StrOf(k.w, k.lastMatched) == m && Matched(r) == [c]
                  && Learned(k.w, k.lastMatched, c, r.w))
  {
    hide Resolve, MatcherInv, Learned, Valid, Ends, Usable, Match;
    ResolveLearns(k, c);
    var k1 := Resolve(k, c);
    EndsMeans(k1, c);
    SizeBound(k);
    UsableSingle(k1.w, k1.lastAdded, [c]);
    assert [] + [c] == [c];
    if Ends(k1, c) {
      EndedMatch(k1, c);
      PendingApart(k);
      var k2 := Cut(k1, c);
      CutLearns(k1, c);
      ResolveLearns(k2, c);
      EndsMeans(Resolve(k2, c), c);
      UsableSingle(Resolve(k2, c).w, Resolve(k2, c).lastAdded, [c]);
      CutMatched(k1, c);
      PushMeans(Resolve(k2, c), c);
    } else {
      PushMeans(k1, c);
      PendingApart(k);
    }
  }

  lemma PendingApart(k: Matcher)
    requires MatcherInv(k)
    ensures k.updateAt != 0 ==> Matched(k) == []
    ensures Matched(k) != [] ==> Has(k.w, k.lastMatched) && StrOf(k.w, k.lastMatched) == Matched(k)
  {}

  lemma CutMatched(k: Matcher, c: byte)
    requires MatcherInv(k) && k.updateAt == 0
    ensures Matched(Cut(k, c)) == []
  {}

  /** The string cut off is extended by `c` at once, or was already. */
  lemma CutLearns(k: Matcher, c: byte)
    requires MatcherInv(k) && k.updateAt == 0 && Ends(k, c) && k.lastMatched != 0
    ensures Has(k.w, k.lastMatched) && Learned(k.w, k.lastMatched, c, Resolve(Cut(k, c), c).w)
  {
    hide Resolve, Learned, Valid;
    MatchIsStored(k.w, k.l, k.lastMatched, c);
    ResolveLearns(Cut(k, c), c);
    if Match(k.w, k.lastMatched, c) != 0 {
      KnownLearned(k.w, k.lastMatched, c);
    }
  }

  // ----- whole histories -----

  /**
   At every point of every history, a string that waits for the character after it is learned with it:
   one turn of the encoder later the dictionary holds the string so extended.
   */
  lemma AlwaysLearns(l: Limits, calls: seq<Call>, s: Str, choices: seq<bool>, n: nat)
    requires l.Valid() && Reach(l, calls, s, choices, n).rest != []
    ensures var t, t1 := Reach(l, calls, s, choices, n), Reach(l, calls, s, choices, n + 1);
            MatcherInv(t.e.k)
            && if t.e.k.updateAt == 0 then t1.e.k.w == t.e.k.w
               else Learned(t.e.k.w, t.e.k.updateAt, t.rest[0], t1.e.k.w)
  {
    hide EncInv, MatcherInv, Run, Turns, Round, Learned;
    var t := Reach(l, calls, s, choices, n);
    var (e, out) := Run(EncInit(l), calls);
    TurnsSnoc(e, s, choices, n);
    EncMatcher(t.e);
    RoundLearns(t.e, t.rest, t.choices);
  }

  lemma RoundLearns(e: Enc, s: Str, choices: seq<bool>)
    requires EncInv(e) && s != []
    ensures var w1 := Round(e, s, choices).e.k.w;
            if e.k.updateAt == 0 then w1 == e.k.w else Learned(e.k.w, e.k.updateAt, s[0], w1)
  {
    hide EncInv, MatcherInv, Step, Switch, Learned;
    StepLearns(e, s[0]);
    CutShortWaits(Step(e, s[0]).e);
  }
}
