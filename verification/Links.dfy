/**
 The dictionary as the compressor stores it: one table of entries joined by `parent`, `child`
 and `next` links, and what it means for the table to represent a set of numbered strings.
 */
module Links {
  import opened Words

  datatype Entry = Entry(ch: byte, parent: nat, child: nat, next: nat)

  /** First element of a list of siblings, or 0. */
  function First(s: seq<nat>): nat
  {
    if s == [] then 0 else s[0]
  }

  /** The sibling after position `i`, or 0. */
  function After(s: seq<nat>, i: nat): nat
  {
    if i + 1 < |s| then s[i + 1] else 0
  }

  predicate Distinct(s: seq<nat>)
  {
    forall i, j :: 0 <= i < j < |s| ==> s[i] != s[j]
  }

  /** Entry `e` hangs under node `n`, and its string is that of `n` with the entry's character. */
  ghost predicate Under(d: seq<Entry>, w: Words, e: nat, n: nat)
  {
    && e in w.strings && e < |d| && Has(w, n)
    && d[e].parent == n && w.strings[e] == StrOf(w, n) + [d[e].ch]
  }

  /** The children of node `n` are the list `s`, in this order. */
  ghost predicate ListOf(d: seq<Entry>, w: Words, n: nat, s: seq<nat>)
  {
    && n < |d| && d[n].child == First(s) && Distinct(s)
    && (forall i :: 0 <= i < |s| ==> Under(d, w, s[i], n) && d[s[i]].next == After(s, i))
  }

  /**
   The table represents `w`: every node lists exactly its children, every stored string is
   in the list of its parent, and unused slots other than the free one are blank.
   */
  ghost predicate Rep(d: seq<Entry>, w: Words, l: Limits, kids: seq<seq<nat>>, free: nat)
  {
    && Forest(w, l) && |d| == l.size && |kids| == l.size
    && (forall e :: e in w.strings ==> FIRST_FREE <= e < l.size)
    && (forall n :: 0 <= n < l.size ==> ListOf(d, w, n, kids[n]))
    && (forall e :: e in w.strings ==> d[e].parent < l.size && e in kids[d[e].parent])
    && (forall n :: FIRST_ENTRY <= n < FIRST_FREE ==> d[n].ch == n - FIRST_ENTRY && d[n].parent == 0)
    && (forall n :: FIRST_FREE <= n < l.size && n !in w.strings && n != free ==> d[n].parent == 0)
  }

  // ----- reading -----

  lemma StrOfInjective(w: Words, l: Limits, m: nat, n: nat)
    requires Forest(w, l) && Has(w, m) && Has(w, n) && StrOf(w, m) == StrOf(w, n)
    requires forall e :: e in w.strings ==> FIRST_FREE <= e < l.size
    ensures m == n
  {}

  /** A stored extension of `at` by `c` is a child of `at` with that character. */
  lemma ExtensionListed(d: seq<Entry>, w: Words, l: Limits, kids: seq<seq<nat>>, free: nat, at: nat, c: byte)
    requires Rep(d, w, l, kids, free) && Has(w, at) && at < l.size && StrOf(w, at) + [c] in w.codes
    ensures var e := w.codes[StrOf(w, at) + [c]]; e in kids[at] && e < |d| && d[e].ch == c && d[e].parent == at
  {
    var s := StrOf(w, at) + [c];
    var e := w.codes[s];
    var p := d[e].parent;
    assert e in kids[p] && ListOf(d, w, p, kids[p]);
    assert Under(d, w, e, p);
    assert StrOf(w, p) == s[..|s| - 1] == StrOf(w, at);
    StrOfInjective(w, l, p, at);
  }

  lemma ListMember(d: seq<Entry>, w: Words, n: nat, s: seq<nat>, e: nat)
    requires ListOf(d, w, n, s) && e in s
    ensures Under(d, w, e, n)
  {}

  /** A child of `at` with character `c` is the extension of `at` by `c`. */
  lemma ChildMatches(d: seq<Entry>, w: Words, l: Limits, kids: seq<seq<nat>>, free: nat, at: nat, i: nat)
    requires Rep(d, w, l, kids, free) && Has(w, at) && at < l.size && i < |kids[at]|
    ensures var e := kids[at][i];
            FIRST_FREE <= e < l.size && e in w.strings && Match(w, at, d[e].ch) == e
  {
    assert ListOf(d, w, at, kids[at]);
    assert Under(d, w, kids[at][i], at);
  }

  lemma RepList(d: seq<Entry>, w: Words, l: Limits, kids: seq<seq<nat>>, free: nat, n: nat)
    requires Rep(d, w, l, kids, free) && n < l.size
    ensures ListOf(d, w, n, kids[n])
  {}

  lemma ListExtends(d: seq<Entry>, w: Words, n: nat, s: seq<nat>)
    requires Bijective(w) && ListOf(d, w, n, s) && s != []
    ensures HasChild(w, n) && s[0] in w.strings
  {
    assert Under(d, w, s[0], n);
    assert StrOf(w, n) + [d[s[0]].ch] in w.codes;
  }

  /** A node has a child exactly when its string has an extension. */
  lemma ChildIffExtended(d: seq<Entry>, w: Words, l: Limits, kids: seq<seq<nat>>, free: nat, n: nat)
    requires Rep(d, w, l, kids, free) && FIRST_ENTRY <= n < l.size
    ensures d[n].child != 0 <==> HasChild(w, n)
    ensures kids[n] == [] <==> d[n].child == 0
  {
    RepList(d, w, l, kids, free, n);
    if kids[n] != [] {
      ListExtends(d, w, n, kids[n]);
    } else if HasChild(w, n) {
      var c: byte :| StrOf(w, n) + [c] in w.codes;
      ExtensionListed(d, w, l, kids, free, n, c);
    }
  }

  // ----- inserting -----

  /** The table after linking the free slot `e` in front of the children of `at`. */
  function Linked(d: seq<Entry>, e: nat, at: nat, c: byte): (r: seq<Entry>)
    requires e < |d| && at < |d| && e != at
    ensures |r| == |d| && r[e] == Entry(c, at, 0, d[at].child) && r[at] == d[at].(child := e)
    ensures forall n :: 0 <= n < |d| && n != e && n != at ==> r[n] == d[n]
  {
    d[e := Entry(c, at, 0, d[at].child)][at := d[at].(child := e)]
  }

  ghost predicate CanLink(d: seq<Entry>, w: Words, l: Limits, e: nat, at: nat, c: byte)
  {
    && Bijective(w) && FIRST_FREE <= e < l.size == |d| && e !in w.strings
    && Has(w, at) && at < l.size && StrOf(w, at) + [c] !in w.codes
  }

  lemma InsertKeepsUnder(d: seq<Entry>, w: Words, l: Limits, e: nat, at: nat, c: byte, x: nat, n: nat)
    requires CanLink(d, w, l, e, at, c) && Under(d, w, x, n)
    ensures var r := Linked(d, e, at, c); var w1 := Insert(w, e, StrOf(w, at) + [c]);
            x != e && n != e && Under(r, w1, x, n) && r[x].next == d[x].next
  {}

  /** The lists of the other nodes stay. */
  lemma InsertOther(d: seq<Entry>, w: Words, l: Limits, e: nat, at: nat, c: byte, n: nat, s: seq<nat>)
    requires CanLink(d, w, l, e, at, c) && ListOf(d, w, n, s) && n != at && n != e
    ensures ListOf(Linked(d, e, at, c), Insert(w, e, StrOf(w, at) + [c]), n, s)
  {
    hide Linked;
    forall i | 0 <= i < |s|
      ensures Under(Linked(d, e, at, c), Insert(w, e, StrOf(w, at) + [c]), s[i], n)
              && Linked(d, e, at, c)[s[i]].next == After(s, i)
    {
      InsertKeepsUnder(d, w, l, e, at, c, s[i], n);
    }
  }

  /** The list of the node extended gets the new entry in front. */
  lemma InsertAt(d: seq<Entry>, w: Words, l: Limits, e: nat, at: nat, c: byte, s: seq<nat>)
    requires CanLink(d, w, l, e, at, c) && ListOf(d, w, at, s)
    ensures ListOf(Linked(d, e, at, c), Insert(w, e, StrOf(w, at) + [c]), at, [e] + s)
  {
    var r := Linked(d, e, at, c);
    var w1 := Insert(w, e, StrOf(w, at) + [c]);
    assert Under(r, w1, e, at);
    hide Under, Linked;
    forall i | 0 <= i < |s|
      ensures Under(r, w1, s[i], at) && r[s[i]].next == After(s, i) && s[i] != e
    {
      InsertKeepsUnder(d, w, l, e, at, c, s[i], at);
    }
    forall i | 0 <= i < |[e] + s|
      ensures Under(r, w1, ([e] + s)[i], at) && r[([e] + s)[i]].next == After([e] + s, i)
    {
      if i > 0 {
        assert ([e] + s)[i] == s[i - 1];
      }
    }
  }

  lemma ListNeedsNode(d: seq<Entry>, w: Words, n: nat, s: seq<nat>)
    requires ListOf(d, w, n, s)
    ensures s != [] ==> Has(w, n)
  {
    if s != [] {
      assert Under(d, w, s[0], n);
    }
  }

  lemma FreeHasNoList(d: seq<Entry>, w: Words, l: Limits, kids: seq<seq<nat>>, free: nat)
    requires Rep(d, w, l, kids, free) && FIRST_FREE <= free < l.size && free !in w.strings
    ensures kids[free] == []
  {
    RepList(d, w, l, kids, free, free);
    ListNeedsNode(d, w, free, kids[free]);
  }

  /** Linking a new entry represents the inserted string. */
  lemma InsertRep(d: seq<Entry>, w: Words, l: Limits, kids: seq<seq<nat>>, e: nat, at: nat, c: byte)
    requires Rep(d, w, l, kids, e) && CanLink(d, w, l, e, at, c)
    requires Forest(Insert(w, e, StrOf(w, at) + [c]), l)
    ensures Rep(Linked(d, e, at, c), Insert(w, e, StrOf(w, at) + [c]), l, kids[at := [e] + kids[at]], e)
  {
    var r := Linked(d, e, at, c);
    var w1 := Insert(w, e, StrOf(w, at) + [c]);
    var kids1 := kids[at := [e] + kids[at]];
    FreeHasNoList(d, w, l, kids, e);
    forall n | 0 <= n < l.size
      ensures ListOf(r, w1, n, kids1[n])
    {
      RepList(d, w, l, kids, e, n);
      if n == at {
        InsertAt(d, w, l, e, at, c, kids[at]);
      } else if n != e {
        InsertOther(d, w, l, e, at, c, n, kids[n]);
      }
    }
    hide ListOf, Linked;
    InsertListed(d, w, l, kids, e, at, c);
  }

  lemma InsertListed(d: seq<Entry>, w: Words, l: Limits, kids: seq<seq<nat>>, e: nat, at: nat, c: byte)
    requires Rep(d, w, l, kids, e) && CanLink(d, w, l, e, at, c)
    ensures var r := Linked(d, e, at, c);
            var w1 := Insert(w, e, StrOf(w, at) + [c]);
            var kids1 := kids[at := [e] + kids[at]];
            && (forall x :: x in w1.strings ==>
                  FIRST_FREE <= x < l.size && r[x].parent < l.size && x in kids1[r[x].parent])
            && (forall n :: FIRST_ENTRY <= n < FIRST_FREE ==> r[n].ch == n - FIRST_ENTRY && r[n].parent == 0)
            && (forall n :: FIRST_FREE <= n < l.size && n !in w1.strings && n != e ==> r[n].parent == 0)
  {
    hide ListOf;
  }

  // ----- removing -----

  function Without(s: seq<nat>, i: nat): (r: seq<nat>)
    requires i < |s|
  {
    s[..i] + s[i + 1..]
  }

  /** The table after taking position `i` out of the list `s` of node `p`. */
  function Unlinked(d: seq<Entry>, p: nat, s: seq<nat>, i: nat): (r: seq<Entry>)
    requires i < |s| && p < |d| && forall k :: 0 <= k < |s| ==> s[k] < |d|
    ensures |r| == |d|
  {
    if i == 0 then d[p := d[p].(child := d[s[i]].next)]
    else d[s[i - 1] := d[s[i - 1]].(next := d[s[i]].next)]
  }

  /** `x` is a stored string without extension, listed at position `i` under `p`. */
  ghost predicate CanUnlink(d: seq<Entry>, w: Words, p: nat, s: seq<nat>, i: nat)
  {
    && Bijective(w) && ListOf(d, w, p, s) && i < |s|
    && (forall k :: 0 <= k < |s| ==> s[k] < |d|)
    && s[i] >= FIRST_FREE && !HasChild(w, s[i])
  }

  lemma ParentNotRemoved(d: seq<Entry>, w: Words, x: nat, n: nat, e: nat)
    requires Bijective(w) && e >= FIRST_FREE && !HasChild(w, e) && Under(d, w, x, n)
    ensures n != e
  {
    assert StrOf(w, n) + [d[x].ch] in w.codes;
  }

  lemma RemoveKeepsUnder(d: seq<Entry>, r: seq<Entry>, w: Words, x: nat, n: nat, e: nat)
    requires Bijective(w) && e >= FIRST_FREE && !HasChild(w, e) && Under(d, w, x, n) && x != e
    requires |r| == |d| && r[x].parent == d[x].parent && r[x].ch == d[x].ch
    ensures Under(r, Remove(w, e), x, n)
  {
    ParentNotRemoved(d, w, x, n, e);
  }

  lemma UnlinkedKeeps(d: seq<Entry>, p: nat, s: seq<nat>, i: nat, n: nat)
    requires i < |s| && p < |d| && (forall k :: 0 <= k < |s| ==> s[k] < |d|) && n < |d|
    ensures var r := Unlinked(d, p, s, i);
            && r[n].parent == d[n].parent && r[n].ch == d[n].ch
            && (n != p ==> r[n].child == d[n].child) && (i == 0 || n != s[i - 1] ==> r[n].next == d[n].next)
  {}

  /** The lists of the other nodes stay. */
  lemma RemoveOther(d: seq<Entry>, w: Words, p: nat, s: seq<nat>, i: nat, n: nat, t: seq<nat>)
    requires CanUnlink(d, w, p, s, i) && ListOf(d, w, n, t) && n != p
    ensures ListOf(Unlinked(d, p, s, i), Remove(w, s[i]), n, t)
  {
    var r := Unlinked(d, p, s, i);
    hide Unlinked;
    UnlinkedKeeps(d, p, s, i, n);
    forall k | 0 <= k < |t|
      ensures Under(r, Remove(w, s[i]), t[k], n) && r[t[k]].next == After(t, k)
    {
      assert Under(d, w, t[k], n) && Under(d, w, s[i], p);
      if i > 0 { assert Under(d, w, s[i - 1], p); }
      UnlinkedKeeps(d, p, s, i, t[k]);
      RemoveKeepsUnder(d, r, w, t[k], n, s[i]);
    }
  }

  lemma WithoutAt(s: seq<nat>, i: nat, k: nat)
    requires i < |s| && k < |Without(s, i)| && Distinct(s)
    ensures Without(s, i)[k] == s[if k < i then k else k + 1] && Without(s, i)[k] != s[i]
    ensures After(Without(s, i), k) == (if k + 1 == i then After(s, i) else After(s, if k < i then k else k + 1))
  {}

  /** The list of the parent loses the entry. */
  lemma RemoveAt(d: seq<Entry>, w: Words, p: nat, s: seq<nat>, i: nat)
    requires CanUnlink(d, w, p, s, i)
    ensures ListOf(Unlinked(d, p, s, i), Remove(w, s[i]), p, Without(s, i))
  {
    var r := Unlinked(d, p, s, i);
    var t := Without(s, i);
    forall k | 0 <= k < |t|
      ensures Under(r, Remove(w, s[i]), t[k], p) && r[t[k]].next == After(t, k)
    {
      WithoutAt(s, i, k);
      var j := if k < i then k else k + 1;
      assert Under(d, w, s[j], p) && Under(d, w, s[i], p);
      UnlinkedKeeps(d, p, s, i, s[j]);
      RemoveKeepsUnder(d, r, w, s[j], p, s[i]);
    }
    RemoveAtHead(d, w, p, s, i);
  }

  lemma RemoveAtHead(d: seq<Entry>, w: Words, p: nat, s: seq<nat>, i: nat)
    requires CanUnlink(d, w, p, s, i)
    ensures Unlinked(d, p, s, i)[p].child == First(Without(s, i)) && Distinct(Without(s, i))
  {
    hide Bijective, HasChild, StrOf;
    WithoutDistinct(s, i);
    assert Under(d, w, s[i], p);
    if i > 0 {
      assert Under(d, w, s[i - 1], p);
    }
  }

  lemma WithoutDistinct(s: seq<nat>, i: nat)
    requires i < |s| && Distinct(s)
    ensures Distinct(Without(s, i))
  {}

  lemma RemoveLists(d: seq<Entry>, w: Words, l: Limits, kids: seq<seq<nat>>, free: nat, p: nat, i: nat, n: nat)
    requires Rep(d, w, l, kids, free) && p < l.size && n < l.size
    requires CanUnlink(d, w, p, kids[p], i)
    ensures ListOf(Unlinked(d, p, kids[p], i), Remove(w, kids[p][i]), n, kids[p := Without(kids[p], i)][n])
  {
    RepList(d, w, l, kids, free, n);
    hide ListOf, Unlinked, CanUnlink, Rep;
    if n == p {
      RemoveAt(d, w, p, kids[p], i);
    } else {
      RemoveOther(d, w, p, kids[p], i, n, kids[n]);
    }
  }

  /** Unlinking a leaf represents the removal of its string. */
  lemma RemoveRep(d: seq<Entry>, w: Words, l: Limits, kids: seq<seq<nat>>, free: nat, p: nat, i: nat)
    requires Rep(d, w, l, kids, free) && free in w.strings && p < l.size
    requires CanUnlink(d, w, p, kids[p], i) && Forest(Remove(w, kids[p][i]), l)
    ensures var e := kids[p][i];
            Rep(Unlinked(d, p, kids[p], i), Remove(w, e), l, kids[p := Without(kids[p], i)], e)
  {
    hide ListOf, Unlinked;
    var r := Unlinked(d, p, kids[p], i);
    var w1 := Remove(w, kids[p][i]);
    var kids1 := kids[p := Without(kids[p], i)];
    forall n | 0 <= n < l.size
      ensures ListOf(r, w1, n, kids1[n])
    {
      RemoveLists(d, w, l, kids, free, p, i, n);
    }
    RemoveListed(d, w, l, kids, free, p, i);
  }

  lemma RemoveListed(d: seq<Entry>, w: Words, l: Limits, kids: seq<seq<nat>>, free: nat, p: nat, i: nat)
    requires Rep(d, w, l, kids, free) && free in w.strings && p < l.size
    requires CanUnlink(d, w, p, kids[p], i)
    ensures var e := kids[p][i];
            var r := Unlinked(d, p, kids[p], i);
            var w1 := Remove(w, e);
            var kids1 := kids[p := Without(kids[p], i)];
            && (forall x :: x in w1.strings ==>
                  FIRST_FREE <= x < l.size && r[x].parent < l.size && x in kids1[r[x].parent])
            && (forall n :: FIRST_ENTRY <= n < FIRST_FREE ==> r[n].ch == n - FIRST_ENTRY && r[n].parent == 0)
            && (forall n :: FIRST_FREE <= n < l.size && n !in w1.strings && n != e ==> r[n].parent == 0)
  {
    hide ListOf, Unlinked;
    var e := kids[p][i];
    var r := Unlinked(d, p, kids[p], i);
    forall n | 0 <= n < l.size
      ensures r[n].parent == d[n].parent && r[n].ch == d[n].ch
    {
      UnlinkedKeeps(d, p, kids[p], i, n);
    }
    forall x | x in Remove(w, e).strings && d[x].parent == p
      ensures x in Without(kids[p], i)
    {
      StillListed(kids[p], i, x);
    }
  }

  lemma StillListed(s: seq<nat>, i: nat, x: nat)
    requires i < |s| && x in s && x != s[i]
    ensures x in Without(s, i)
  {
    var k :| 0 <= k < |s| && s[k] == x;
    assert Without(s, i)[if k < i then k else k - 1] == x;
  }

  /** Following the parent of an entry takes the last character off its string. */
  lemma ParentStep(d: seq<Entry>, w: Words, l: Limits, kids: seq<seq<nat>>, free: nat, n: nat)
    requires Rep(d, w, l, kids, free) && Has(w, n) && n < l.size
    ensures var p := d[n].parent;
            if p == 0 then StrOf(w, n) == [d[n].ch]
            else p < l.size && Has(w, p) && StrOf(w, p) != [] && StrOf(w, n) == StrOf(w, p) + [d[n].ch]
  {
    if n in w.strings {
      var p := d[n].parent;
      RepList(d, w, l, kids, free, p);
      ListMember(d, w, p, kids[p], n);
    }
  }
}
