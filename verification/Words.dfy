/**
 The V.42bis dictionary as a set of numbered strings: the specification that the linked
 `parent`/`child`/`next` array of the compressor implements (see Dictionary.dfy).

 Codewords 3 to 258 stand for the 256 one-character strings and are never stored.  The
 remaining codewords are allocated in order, and recycled once the table is full.
 */
module Words {

  type byte = x: int | 0 <= x < 256
  type Str = seq<byte>

  const FIRST_ENTRY := 3
  const FIRST_FREE := 259

  /** `strings` and `codes` are inverse to each other; `nextFree` is the slot that the next string takes. */
  datatype Words = Words(strings: map<nat, Str>, codes: map<Str, nat>, nextFree: nat)

  const EMPTY := Words(map[], map[], FIRST_FREE)

  /** The two negotiated parameters: dictionary size and maximum string length. */
  datatype Limits = Limits(size: nat, maxStr: nat) {
    predicate Valid() {
      512 <= size <= 32768 && 6 <= maxStr <= 250
    }
  }

  predicate Has(w: Words, n: nat) {
    FIRST_ENTRY <= n < FIRST_FREE || n in w.strings
  }

  function StrOf(w: Words, n: nat): (s: Str)
    requires Has(w, n)
  {
    if FIRST_ENTRY <= n < FIRST_FREE then [n - FIRST_ENTRY] else w.strings[n]
  }

  /** Codeword of the string of `at` extended by `c`; 0 when there is none.  Node 0 is the empty string. */
  function Match(w: Words, at: nat, c: byte): (n: nat)
    requires at == 0 || Has(w, at)
  {
    if at == 0 then c + FIRST_ENTRY
    else
      var s := StrOf(w, at) + [c];
      if s in w.codes then w.codes[s] else 0
  }

  /** Some stored string extends the stored string of `n` by one character. */
  ghost predicate HasChild(w: Words, n: nat) {
    Has(w, n) && exists c: byte :: StrOf(w, n) + [c] in w.codes
  }

  function NextSlot(l: Limits, n: nat): (m: nat)
  {
    if n + 1 == l.size then FIRST_FREE else n + 1
  }

  /** Number of slots from `n` up to and including `stop`, going round; a full turn when they are equal. */
  function Turn(l: Limits, n: nat, stop: nat): int
  {
    if n < stop then stop - n else stop - n + l.size - FIRST_FREE
  }

  /** First slot after `n`, going round, whose string has no extension; the search ends at `stop`. */
  ghost function Scan(w: Words, l: Limits, n: nat, stop: nat): (m: nat)
    requires l.Valid()
    requires FIRST_FREE <= n < l.size && FIRST_FREE <= stop < l.size
    ensures FIRST_FREE <= m < l.size
    ensures m == stop || !HasChild(w, m)
    decreases Turn(l, n, stop)
  {
    var m := NextSlot(l, n);
    if m == stop || !HasChild(w, m) then m else Scan(w, l, m, stop)
  }

  function Insert(w: Words, n: nat, s: Str): Words
  {
    w.(strings := w.strings[n := s], codes := w.codes[s := n])
  }

  function Remove(w: Words, n: nat): Words
  {
    if n in w.strings then w.(strings := w.strings - {n}, codes := w.codes - {w.strings[n]}) else w
  }

  /** Store the string of `at` extended by `c` at the free slot, then free the next recyclable slot. */
  ghost function Add(w: Words, l: Limits, at: nat, c: byte): (r: Words)
    requires l.Valid() && Has(w, at) && FIRST_FREE <= w.nextFree < l.size
  {
    var w1 := Insert(w, w.nextFree, StrOf(w, at) + [c]);
    var next := Scan(w1, l, w.nextFree, w.nextFree);
    Remove(w1, next).(nextFree := next)
  }

  /** Numbering is a bijection. */
  ghost predicate Bijective(w: Words)
  {
    && (forall n :: n in w.strings ==> w.strings[n] in w.codes && w.codes[w.strings[n]] == n)
    && (forall s :: s in w.codes ==> w.codes[s] in w.strings && w.strings[w.codes[s]] == s)
  }

  /** Every stored string has at least two characters, and its longest proper prefix is stored too. */
  ghost predicate PrefixClosed(w: Words)
  {
    && (forall s :: s in w.codes ==> |s| >= 2)
    && (forall s: Str {:trigger Shorter(s)} :: |s| > 2 && s in w.codes ==> Shorter(s) in w.codes)
  }

  function Shorter(s: Str): (r: Str)
    requires s != []
  {
    s[..|s| - 1]
  }

  /** The stored strings form a forest over the one-character strings, of bounded depth. */
  ghost predicate Forest(w: Words, l: Limits)
  {
    l.Valid() && Bijective(w) && PrefixClosed(w) && forall s :: s in w.codes ==> |s| <= l.maxStr
  }

  ghost predicate InRange(w: Words, l: Limits)
  {
    && FIRST_FREE <= w.nextFree < l.size
    && w.nextFree !in w.strings
    && (forall n :: n in w.strings ==> FIRST_FREE <= n < l.size)
  }

  ghost predicate Valid(w: Words, l: Limits)
  {
    Forest(w, l) && InRange(w, l)
  }

  /** `c` may be added after `at`: the extension is new and not longer than the limit. */
  ghost predicate CanAdd(w: Words, l: Limits, at: nat, c: byte)
  {
    Valid(w, l) && Has(w, at) && |StrOf(w, at)| < l.maxStr && Match(w, at, c) == 0
  }

  lemma EmptyValid(l: Limits)
    requires l.Valid()
    ensures Valid(EMPTY, l)
  {}

  lemma InsertBijective(w: Words, n: nat, s: Str)
    requires Bijective(w) && n !in w.strings && s !in w.codes
    ensures Bijective(Insert(w, n, s))
  {}

  lemma RemoveBijective(w: Words, n: nat)
    requires Bijective(w)
    ensures Bijective(Remove(w, n))
  {}

  // ----- the recovery scan never comes back to the entry just added -----

  /** All slots strictly between `n` and the result of the scan have an extension. */
  lemma {:induction false} ScanSkipped(w: Words, l: Limits, n: nat, stop: nat, k: nat)
    requires l.Valid()
    requires FIRST_FREE <= n < l.size && FIRST_FREE <= stop < l.size && FIRST_FREE <= k < l.size
    requires Scan(w, l, n, stop) == stop
    requires 0 < Turn(l, n, k) < Turn(l, n, stop)
    ensures HasChild(w, k)
    decreases Turn(l, n, stop)
  {
    var m := NextSlot(l, n);
    if m != k {
      ScanSkipped(w, l, m, stop, k);
    }
  }

  /** A stored string with an extension, as an extension. */
  lemma ChildOf(w: Words, s: Str) returns (c: byte)
    requires Bijective(w) && s in w.codes && FIRST_FREE <= w.codes[s] && HasChild(w, w.codes[s])
    ensures s + [c] in w.codes
  {
    c :| StrOf(w, w.codes[s]) + [c] in w.codes;
  }

  /**
   If every stored string but `top` has an extension, then every stored string is a prefix of
   `top`: follow extensions until they stop, which happens because lengths are bounded.
   */
  lemma {:induction false} OnlyLeaf(w: Words, l: Limits, top: Str, s: Str)
    requires Forest(w, l) && s in w.codes && top in w.codes
    requires forall t :: t in w.codes ==> FIRST_FREE <= w.codes[t]
    requires forall t :: t in w.codes && t != top ==> HasChild(w, w.codes[t])
    ensures s <= top
    decreases l.maxStr - |s|
  {
    if s != top {
      var c := ChildOf(w, s);
      OnlyLeaf(w, l, top, s + [c]);
      assert s + [c] <= top;
      assert top[..|s|] == (s + [c])[..|s|] == s;
    }
  }

  /** Pigeonhole: distinct elements with distinct images below `m` are at most `m`. */
  lemma {:induction false} Pigeonhole(slots: set<nat>, f: map<nat, nat>, m: nat)
    requires slots <= f.Keys
    requires forall x :: x in slots ==> f[x] < m
    requires forall x, y :: x in slots && y in slots && f[x] == f[y] ==> x == y
    ensures |slots| <= m
  {
    if m == 0 {
      assert slots == {};
    } else if x :| x in slots && f[x] == m - 1 {
      Pigeonhole(slots - {x}, f, m - 1);
    } else {
      Pigeonhole(slots, f, m - 1);
    }
  }

  ghost function Slots(hi: nat): (r: set<nat>)
    ensures forall n: nat :: n in r <==> FIRST_FREE <= n < hi
    ensures |r| == if hi < FIRST_FREE then 0 else hi - FIRST_FREE
  {
    if hi <= FIRST_FREE then {} else Slots(hi - 1) + {hi - 1}
  }

  /** A full turn of the scan means that every slot is taken, by prefixes of the string just stored. */
  lemma FullTurn(w: Words, l: Limits, slot: nat, s: Str, k: nat)
    requires Forest(w, l) && s in w.codes && w.codes[s] == slot
    requires forall t :: t in w.codes ==> FIRST_FREE <= w.codes[t] < l.size
    requires FIRST_FREE <= slot < l.size && FIRST_FREE <= k < l.size
    requires Scan(w, l, slot, slot) == slot
    ensures k in w.strings && w.strings[k] <= s
  {
    if k != slot {
      ScanSkipped(w, l, slot, slot, k);
    }
    forall t | t in w.codes && t != s
      ensures HasChild(w, w.codes[t])
    {
      ScanSkipped(w, l, slot, slot, w.codes[t]);
    }
    OnlyLeaf(w, l, s, w.strings[k]);
  }

  ghost predicate AllPrefixes(w: Words, l: Limits, s: Str)
  {
    forall k: nat :: FIRST_FREE <= k < l.size ==> k in w.strings && w.strings[k] <= s
  }

  /** The slots are too many to all hold prefixes of one string. */
  lemma TooMany(w: Words, l: Limits, s: Str)
    requires l.Valid() && Bijective(w) && |s| <= l.maxStr
    ensures !AllPrefixes(w, l, s)
  {
    if AllPrefixes(w, l, s) {
      var slots := Slots(l.size);
      var depth: map<nat, nat> := map k: nat | k in slots :: |w.strings[k]|;
      forall x, y | x in slots && y in slots && depth[x] == depth[y]
        ensures x == y
      {
        assert w.strings[x] == s[..depth[x]] == w.strings[y];
      }
      Pigeonhole(slots, depth, l.maxStr + 1);
    }
  }

  /**
   The recovery scan stops on an entry other than the one just stored.  Otherwise all the
   other slots would hold prefixes of one string, more of them than that string has characters.
   */
  lemma ScanLeavesNew(w: Words, l: Limits, slot: nat, s: Str)
    requires Forest(w, l) && s in w.codes && w.codes[s] == slot
    requires forall t :: t in w.codes ==> FIRST_FREE <= w.codes[t] < l.size
    ensures Scan(w, l, slot, slot) != slot
  {
    if Scan(w, l, slot, slot) == slot {
      forall k: nat | FIRST_FREE <= k < l.size
        ensures k in w.strings && w.strings[k] <= s
      {
        FullTurn(w, l, slot, s, k);
      }
      TooMany(w, l, s);
    }
  }

  lemma InsertForest(w: Words, l: Limits, n: nat, s: Str)
    requires Valid(w, l) && n == w.nextFree && s !in w.codes
    requires 2 <= |s| <= l.maxStr && (|s| > 2 ==> Shorter(s) in w.codes)
    ensures Forest(Insert(w, n, s), l)
    ensures forall k :: k in Insert(w, n, s).strings ==> FIRST_FREE <= k < l.size
  {
    InsertBijective(w, n, s);
  }

  lemma NotExtended(w: Words, n: nat, s: Str)
    requires Bijective(w) && n in w.strings && !HasChild(w, n) && FIRST_FREE <= n
    requires s in w.codes && |s| > 1
    ensures Shorter(s) != w.strings[n]
  {
    assert s == Shorter(s) + [s[|s| - 1]];
  }

  /** Removing a string that has no extension keeps the forest. */
  lemma RemoveForest(w: Words, l: Limits, n: nat)
    requires Forest(w, l) && FIRST_FREE <= n && !HasChild(w, n)
    ensures Forest(Remove(w, n), l)
  {
    RemoveBijective(w, n);
    if n in w.strings {
      forall s: Str | |s| > 2 && s in Remove(w, n).codes
        ensures Shorter(s) in Remove(w, n).codes
      {
        NotExtended(w, n, s);
      }
    }
  }

  lemma ExtensionFits(w: Words, l: Limits, at: nat, c: byte)
    requires CanAdd(w, l, at, c)
    ensures var s := StrOf(w, at) + [c];
            s !in w.codes && 2 <= |s| <= l.maxStr && (|s| > 2 ==> Shorter(s) in w.codes)
  {
    var s := StrOf(w, at) + [c];
    assert Shorter(s) == StrOf(w, at);
    if s in w.codes {
      assert false;
    }
  }

  /** The slot freed by adding: a leaf, neither the new entry nor the one it extends. */
  lemma Recycled(w: Words, l: Limits, at: nat, c: byte)
    requires CanAdd(w, l, at, c)
    ensures var s := StrOf(w, at) + [c];
            var w1 := Insert(w, w.nextFree, s);
            var next := Scan(w1, l, w.nextFree, w.nextFree);
            && Forest(w1, l) && !HasChild(w1, next)
            && next != w.nextFree && next != at
            && (forall k :: k in w1.strings ==> FIRST_FREE <= k < l.size)
  {
    var s := StrOf(w, at) + [c];
    ExtensionFits(w, l, at, c);
    var w1 := Insert(w, w.nextFree, s);
    InsertForest(w, l, w.nextFree, s);
    ScanLeavesNew(w1, l, w.nextFree, s);
    assert StrOf(w1, at) + [c] in w1.codes;
  }

  /**
   Adding keeps the dictionary valid, stores exactly the new string under the old free slot,
   and frees exactly one other slot, which no stored string extends.
   */
  lemma AddSpec(w: Words, l: Limits, at: nat, c: byte)
    requires CanAdd(w, l, at, c)
    ensures var r := Add(w, l, at, c);
            && Valid(r, l)
            && r.nextFree != w.nextFree && r.nextFree != at
            && r.strings == w.strings[w.nextFree := StrOf(w, at) + [c]] - {r.nextFree}
  {
    Recycled(w, l, at, c);
    var w1 := Insert(w, w.nextFree, StrOf(w, at) + [c]);
    RemoveForest(w1, l, Scan(w1, l, w.nextFree, w.nextFree));
  }

  /** Entries other than the recycled one keep their strings. */
  lemma AddKeeps(w: Words, l: Limits, at: nat, c: byte, n: nat)
    requires CanAdd(w, l, at, c)
    requires n != w.nextFree && n != Add(w, l, at, c).nextFree
    ensures Has(w, n) == Has(Add(w, l, at, c), n)
    ensures Has(w, n) ==> StrOf(w, n) == StrOf(Add(w, l, at, c), n)
  {
    AddSpec(w, l, at, c);
  }
}
