/** The dictionary of the compressor: an array of linked entries that is updated in place. */
module Dictionary {
  import opened Words
  import opened Links

  class Dictionary {
    const l: Limits
    const dict: array<Entry>
    var nextFree: nat
    /** The strings stored, and the children of every node in list order. */
    ghost var w: Words
    ghost var kids: seq<seq<nat>>

    ghost predicate Inv()
      reads this, dict
    {
      dict.Length == l.size && Valid(w, l) && w.nextFree == nextFree && Rep(dict[..], w, l, kids, nextFree)
    }

    /** An empty dictionary. */
    constructor (limits: Limits)
      requires limits.Valid()
      ensures Inv() && fresh(dict) && l == limits && w == EMPTY
    {
      l := limits;
      dict := new Entry[limits.size](i => Entry(if FIRST_ENTRY <= i < FIRST_FREE then i - FIRST_ENTRY else 0, 0, 0, 0));
      nextFree := FIRST_FREE;
      w := EMPTY;
      kids := seq(limits.size, i => []);
      new;
      EmptyRep(dict[..], l);
    }

    /** Take all strings out again. */
    method Clear()
      requires Inv()
      modifies this, dict
      ensures Inv() && w == EMPTY
    {
      RepLimits(dict[..], w, l, kids, nextFree);
      RootCharacters(dict[..], w, l, kids, nextFree);
      hide Rep, Valid;
      var i := 0;
      while i < dict.Length
        invariant i <= dict.Length
        invariant forall n :: FIRST_ENTRY <= n < FIRST_FREE ==> dict[n].ch == n - FIRST_ENTRY
        invariant forall n :: 0 <= n < i ==> dict[n].parent == 0 && dict[n].child == 0 && dict[n].next == 0
      {
        dict[i] := dict[i].(parent := 0, child := 0, next := 0);
        i := i + 1;
      }
      nextFree := FIRST_FREE;
      w := EMPTY;
      kids := seq(l.size, i => []);
      EmptyRep(dict[..], l);
    }

    /** Look up the entry that extends `at` by `ch`: exact lookup among the stored strings. */
    method MatchChar(at: nat, ch: byte) returns (n: nat)
      requires Inv() && (at == 0 || (Has(w, at) && at < l.size))
      ensures n == Match(w, at, ch)
    {
      if at == 0 {
        return ch + FIRST_ENTRY;
      }
      ghost var d := dict[..];
      RepList(d, w, l, kids, nextFree, at);
      n := dict[at].child;
      ghost var i := 0;
      while n != 0
        invariant i <= |kids[at]| && n == (if i < |kids[at]| then kids[at][i] else 0)
        invariant forall j :: 0 <= j < i ==> d[kids[at][j]].ch != ch
        decreases |kids[at]| - i
      {
        ChildMatches(d, w, l, kids, nextFree, at, i);
        if dict[n].ch == ch {
          return;
        }
        n := dict[n].next;
        i := i + 1;
      }
      AllSeen(d, w, l, kids, nextFree, at, ch, i);
    }

    /** The next entry after `slot`, going round, that has no child. */
    method FindLeaf(slot: nat, ghost w1: Words, ghost kids1: seq<seq<nat>>) returns (next: nat)
      requires dict.Length == l.size && Rep(dict[..], w1, l, kids1, slot)
      requires FIRST_FREE <= slot < l.size && !HasChild(w1, slot)
      ensures next == Scan(w1, l, slot, slot)
    {
      hide Rep, HasChild;
      RepLimits(dict[..], w1, l, kids1, slot);
      next := if slot + 1 == l.size then FIRST_FREE else slot + 1;
      ChildIffExtended(dict[..], w1, l, kids1, slot, next);
      while dict[next].child != 0
        invariant FIRST_FREE <= next < l.size && (dict[next].child != 0 <==> HasChild(w1, next))
        invariant Scan(w1, l, slot, slot)
                  == (if next == slot || !HasChild(w1, next) then next else Scan(w1, l, next, slot))
        decreases if next == slot then 0 else Turn(l, next, slot)
      {
        next := if next + 1 == l.size then FIRST_FREE else next + 1;
        ChildIffExtended(dict[..], w1, l, kids1, slot, next);
      }
    }

    /** Take the leaf `e` out of the list of its parent. */
    method Unlink(e: nat, ghost w1: Words, ghost kids1: seq<seq<nat>>, ghost slot: nat)
        returns (ghost p: nat, ghost i: nat)
      requires dict.Length == l.size && Rep(dict[..], w1, l, kids1, slot)
      requires e in w1.strings && FIRST_FREE <= e < l.size && !HasChild(w1, e)
      modifies dict
      ensures p < l.size && i < |kids1[p]| && kids1[p][i] == e
      ensures CanUnlink(old(dict[..]), w1, p, kids1[p], i)
      ensures dict[..] == Unlinked(old(dict[..]), p, kids1[p], i)
    {
      ghost var d := dict[..];
      p, i := Position(d, w1, l, kids1, slot, e);
      hide Rep, HasChild;
      var x := dict[e].parent;
      if dict[x].child == e {
        FoundAt(kids1[p], i, 0);
        dict[x] := dict[x].(child := dict[e].next);
      } else {
        x := dict[x].child;
        ghost var j := 0;
        while dict[x].next != e
          invariant j < i && x == kids1[p][j] && dict[..] == d
          decreases i - j
        {
          x := dict[x].next;
          j := j + 1;
        }
        FoundAt(kids1[p], i, j + 1);
        dict[x] := dict[x].(next := dict[e].next);
      }
    }

    /** Free the next leaf after `slot`. */
    method Recycle(slot: nat, ghost w1: Words, ghost kids1: seq<seq<nat>>)
        returns (next: nat, ghost kids2: seq<seq<nat>>)
      requires dict.Length == l.size && Rep(dict[..], w1, l, kids1, slot)
      requires slot in w1.strings && FIRST_FREE <= slot < l.size && !HasChild(w1, slot)
      requires var next := Scan(w1, l, slot, slot);
               next != slot && !HasChild(w1, next) && Forest(Remove(w1, next), l)
      modifies dict
      ensures next == Scan(w1, l, slot, slot) && Rep(dict[..], Remove(w1, next), l, kids2, next)
    {
      hide Rep, HasChild, Forest, CanUnlink;
      next := FindLeaf(slot, w1, kids1);
      ghost var d := dict[..];
      RepLimits(d, w1, l, kids1, slot);
      ParentIffStored(d, w1, l, kids1, slot, next);
      kids2 := kids1;
      if dict[next].parent != 0 {
        ghost var p, i := Unlink(next, w1, kids1, slot);
        RemoveRep(d, w1, l, kids1, slot, p, i);
        kids2 := kids1[p := Without(kids1[p], i)];
      } else {
        BlankRep(d, w1, l, kids1, slot, next);
      }
    }

    /** Link entry `e` in front of the children of `at`. */
    method Link(e: nat, at: nat, ch: byte)
      requires e < dict.Length && at < dict.Length && e != at
      modifies dict
      ensures dict[..] == Linked(old(dict[..]), e, at, ch)
    {
      dict[e] := Entry(ch, at, 0, dict[at].child);
      dict[at] := dict[at].(child := e);
    }

    /** Store the string of `at` extended by `ch` in the free slot, and free the next leaf. */
    method AddChar(at: nat, ch: byte) returns (n: nat)
      requires Inv() && CanAdd(w, l, at, ch) && at < l.size
      modifies this, dict
      ensures Inv() && w == Add(old(w), l, at, ch) && n == old(nextFree)
    {
      hide Rep, HasChild, Valid, CanAdd, Forest, CanLink, Linked, Remove;
      n := nextFree;
      ghost var d, w0 := dict[..], w;
      AddReady(w, l, at, ch);
      RepLimits(d, w, l, kids, nextFree);
      ghost var w1, kids1 := Insert(w, n, StrOf(w, at) + [ch]), kids[at := [n] + kids[at]];
      BeforeAdd(d, w, l, kids, at, ch);
      InsertRep(d, w, l, kids, n, at, ch);
      Link(n, at, ch);
      nextFree, kids := Recycle(n, w1, kids1);
      AddedRep(dict[..], Remove(w1, nextFree), l, kids, nextFree);
      w := Add(w0, l, at, ch);
      AddSpec(w0, l, at, ch);
    }
  }

  lemma AddReady(w: Words, l: Limits, at: nat, ch: byte)
    requires CanAdd(w, l, at, ch)
    ensures l.Valid() && Has(w, at) && FIRST_FREE <= w.nextFree < l.size && w.nextFree != at
  {}

  /** A list searched to its end without success holds no such extension. */
  lemma AllSeen(d: seq<Entry>, w: Words, l: Limits, kids: seq<seq<nat>>, free: nat, at: nat, ch: byte, i: nat)
    requires Rep(d, w, l, kids, free) && Has(w, at) && at < l.size && i <= |kids[at]|
    requires forall j :: 0 <= j < i ==> kids[at][j] < |d| && d[kids[at][j]].ch != ch
    requires i < |kids[at]| ==> kids[at][i] == 0
    ensures at != 0 ==> Match(w, at, ch) == 0
  {
    if i < |kids[at]| {
      ChildMatches(d, w, l, kids, free, at, i);
    }
    if StrOf(w, at) + [ch] in w.codes {
      ExtensionListed(d, w, l, kids, free, at, ch);
    }
  }

  lemma RepLimits(d: seq<Entry>, w: Words, l: Limits, kids: seq<seq<nat>>, free: nat)
    requires Rep(d, w, l, kids, free)
    ensures l.Valid() && |d| == l.size && |kids| == l.size
  {}

  /** Where the entry `e` is listed, and what the links around it are. */
  lemma Position(d: seq<Entry>, w: Words, l: Limits, kids: seq<seq<nat>>, free: nat, e: nat) returns (p: nat, i: nat)
    requires Rep(d, w, l, kids, free) && e in w.strings && FIRST_FREE <= e && !HasChild(w, e)
    ensures p < l.size && p == d[e].parent && i < |kids[p]| && kids[p][i] == e && CanUnlink(d, w, p, kids[p], i)
    ensures d[p].child == kids[p][0] && Distinct(kids[p]) && e != 0
    ensures forall j :: 0 <= j < |kids[p]| ==> kids[p][j] < |d| && d[kids[p][j]].next == After(kids[p], j)
  {
    p := d[e].parent;
    i :| 0 <= i < |kids[p]| && kids[p][i] == e;
    RepList(d, w, l, kids, free, p);
    forall j | 0 <= j < |kids[p]|
      ensures kids[p][j] < |d|
    {
      assert Under(d, w, kids[p][j], p);
    }
  }

  lemma FoundAt(s: seq<nat>, i: nat, j: nat)
    requires Distinct(s) && i < |s| && j < |s| && s[i] == s[j]
    ensures i == j
  {}

  /** What adding may rely on. */
  lemma BeforeAdd(d: seq<Entry>, w: Words, l: Limits, kids: seq<seq<nat>>, at: nat, ch: byte)
    requires Rep(d, w, l, kids, w.nextFree) && CanAdd(w, l, at, ch) && at < l.size
    ensures var s := StrOf(w, at) + [ch];
            var w1 := Insert(w, w.nextFree, s);
            var next := Scan(w1, l, w.nextFree, w.nextFree);
            && CanLink(d, w, l, w.nextFree, at, ch) && Forest(w1, l)
            && !HasChild(w1, w.nextFree) && !HasChild(w1, next) && next != w.nextFree && Forest(Remove(w1, next), l)
  {
    hide Rep, HasChild;
    RepLimits(d, w, l, kids, w.nextFree);
    ExtensionFits(w, l, at, ch);
    Recycled(w, l, at, ch);
    NewIsLeaf(w, l, at, ch);
    var w1 := Insert(w, w.nextFree, StrOf(w, at) + [ch]);
    RemoveForest(w1, l, Scan(w1, l, w.nextFree, w.nextFree));
  }

  lemma NewIsLeaf(w: Words, l: Limits, at: nat, ch: byte)
    requires CanAdd(w, l, at, ch)
    ensures !HasChild(Insert(w, w.nextFree, StrOf(w, at) + [ch]), w.nextFree)
  {
    var s := StrOf(w, at) + [ch];
    ExtensionFits(w, l, at, ch);
    forall c: byte
      ensures s + [c] !in w.codes
    {
      assert Shorter(s + [c]) == s;
    }
  }

  lemma ParentIffStored(d: seq<Entry>, w: Words, l: Limits, kids: seq<seq<nat>>, free: nat, n: nat)
    requires Rep(d, w, l, kids, free) && FIRST_FREE <= n < l.size && n != free
    ensures d[n].parent != 0 <==> n in w.strings
  {
    if n in w.strings {
      var p := d[n].parent;
      RepList(d, w, l, kids, free, p);
      ListMember(d, w, p, kids[p], n);
    }
  }

  lemma BlankRep(d: seq<Entry>, w: Words, l: Limits, kids: seq<seq<nat>>, free: nat, n: nat)
    requires Rep(d, w, l, kids, free) && free in w.strings && n !in w.strings
    ensures Remove(w, n) == w && Rep(d, w, l, kids, n)
  {}

  lemma ForestIgnoresFree(w: Words, l: Limits, n: nat)
    requires Forest(w, l)
    ensures Forest(w.(nextFree := n), l)
  {}

  lemma AddedRep(d: seq<Entry>, w: Words, l: Limits, kids: seq<seq<nat>>, n: nat)
    requires Rep(d, w, l, kids, n)
    ensures Rep(d, w.(nextFree := n), l, kids, n)
  {
    hide ListOf, Forest;
    var w1 := w.(nextFree := n);
    ForestIgnoresFree(w, l, n);
    forall m | 0 <= m < l.size
      ensures ListOf(d, w1, m, kids[m])
    {
      ListIgnoresFree(d, w, n, m, kids[m]);
    }
  }

  lemma ListIgnoresFree(d: seq<Entry>, w: Words, n: nat, m: nat, s: seq<nat>)
    requires ListOf(d, w, m, s)
    ensures ListOf(d, w.(nextFree := n), m, s)
  {
    forall i | 0 <= i < |s|
      ensures Under(d, w.(nextFree := n), s[i], m)
    {
      assert Under(d, w, s[i], m);
    }
  }

  /** A table without links represents the empty set of strings. */
  lemma EmptyRep(d: seq<Entry>, l: Limits)
    requires l.Valid() && |d| == l.size
    requires forall n :: 0 <= n < |d| ==> d[n].parent == 0 && d[n].child == 0
    requires forall n :: FIRST_ENTRY <= n < FIRST_FREE ==> d[n].ch == n - FIRST_ENTRY
    ensures Valid(EMPTY, l) && Rep(d, EMPTY, l, seq(l.size, i => []), FIRST_FREE)
  {
    EmptyValid(l);
  }

  lemma RootCharacters(d: seq<Entry>, w: Words, l: Limits, kids: seq<seq<nat>>, free: nat)
    requires Rep(d, w, l, kids, free)
    ensures forall n :: FIRST_ENTRY <= n < FIRST_FREE ==> d[n].ch == n - FIRST_ENTRY
  {}
}
