/** Canonical key order (section 3.9 of RFC 7049) on unsigned integer keys is numeric order. */
module KeyOrder {
  import opened Basics
  import opened Cbor

  lemma {:induction false} SamePrefix(p: Bytes, a: Bytes, b: Bytes)
    requires BytesLess(a, b)
    ensures BytesLess(p + a, p + b)
  {
    if p == [] {
      assert p + a == a && p + b == b;
    } else {
      SamePrefix(p[1..], a, b);
      assert (p + a)[1..] == p[1..] + a && (p + b)[1..] == p[1..] + b;
    }
  }

  lemma {:induction false} SmallerPrefix(p: Bytes, q: Bytes, a: Bytes, b: Bytes)
    requires |p| == |q| && BytesLess(p, q)
    ensures BytesLess(p + a, q + b)
  {
    if p[0] == q[0] {
      SmallerPrefix(p[1..], q[1..], a, b);
      assert (p + a)[1..] == p[1..] + a && (q + b)[1..] == q[1..] + b;
    }
  }

  lemma {:induction false} BigEndianOrder(m: nat, n: nat, width: nat)
    requires m < n < Power256(width)
    ensures BytesLess(BigEndian(m, width), BigEndian(n, width))
  {
    var p, q := BigEndian(m / 256, width - 1), BigEndian(n / 256, width - 1);
    if m / 256 < n / 256 {
      BigEndianOrder(m / 256, n / 256, width - 1);
      SmallerPrefix(p, q, [m % 256], [n % 256]);
    } else {
      SamePrefix(p, [m % 256], [n % 256]);
    }
  }

  lemma HeadOrder(m: nat, n: nat)
    requires m < n < WORD
    ensures |Head(0, m)| < |Head(0, n)| || (|Head(0, m)| == |Head(0, n)| && BytesLess(Head(0, m), Head(0, n)))
  {
    hide BigEndian, Power256;
    var w := ArgumentWidth(n);
    if ArgumentWidth(m) == w && w > 0 {
      PowerValues();
      BigEndianOrder(m, n, w);
      SamePrefix([InfoOfWidth(w)], BigEndian(m, w), BigEndian(n, w));
    }
  }

  /** Shorter encoding first, then bytewise: on keys written as unsigned integers, the smaller key first. */
  lemma KeyOrderIsNumeric(e: Entry, f: Entry)
    requires e.key < f.key < WORD && e.spelling == [] && f.spelling == []
    ensures BytesLess(EntryKey(e), EntryKey(f)) && !BytesLess(EntryKey(f), EntryKey(e))
  {
    hide Head;
    HeadOrder(e.key, f.key);
    var a, b := Head(0, e.key), Head(0, f.key);
    assert ([|a|] + a)[1..] == a && ([|b|] + b)[1..] == b;
    BytesLessTotal(EntryKey(e), EntryKey(f));
  }

  predicate IncreasingKeys(d: Dict) {
    forall i, j :: 0 <= i < j < |d| ==> d[i].key < d[j].key
  }

  lemma IncreasingIsSorted(d: Dict)
    requires IncreasingKeys(d) && PlainKeys(d) && forall i :: 0 <= i < |d| ==> d[i].key < WORD
    ensures SortedBy(d, EntryKey)
  {
    forall i, j | 0 <= i < j < |d| ensures !BytesLess(EntryKey(d[j]), EntryKey(d[i])) {
      KeyOrderIsNumeric(d[i], d[j]);
    }
  }

  lemma SortedIsIncreasing(d: Dict)
    requires SortedBy(d, EntryKey) && DistinctKeys(d) && PlainKeys(d)
    requires forall i :: 0 <= i < |d| ==> d[i].key < WORD
    ensures IncreasingKeys(d)
  {
    forall i, j | 0 <= i < j < |d| ensures d[i].key < d[j].key {
      if d[i].key > d[j].key { KeyOrderIsNumeric(d[j], d[i]); }
    }
  }

  /** The key set is exactly {1..n}. */
  predicate KeysUpTo(d: Dict, n: nat) {
    (forall i :: 0 <= i < |d| ==> 1 <= d[i].key <= n) && forall k: nat | 1 <= k <= n :: k in Keys(d)
  }

  lemma KeyMember(d: Dict, i: nat)
    requires i < |d|
    ensures d[i].key in Keys(d)
  {
  }

  lemma LastKey(d: Dict, n: nat)
    requires IncreasingKeys(d) && KeysUpTo(d, n) && n > 0
    ensures d != [] && d[|d| - 1].key == n
  {
    assert n in Keys(d);
    var j :| 0 <= j < |d| && d[j].key == n;
  }

  lemma DropLastKey(d: Dict, n: nat)
    requires IncreasingKeys(d) && KeysUpTo(d, n) && n > 0 && d != [] && d[|d| - 1].key == n
    ensures KeysUpTo(d[..|d| - 1], n - 1)
  {
    var init := d[..|d| - 1];
    forall i | 0 <= i < |init| ensures 1 <= init[i].key <= n - 1 {
      assert d[i].key < d[|d| - 1].key;
    }
    forall k: nat | 1 <= k <= n - 1 ensures k in Keys(init) {
      assert k in Keys(d);
      var i :| 0 <= i < |d| && d[i].key == k;
      KeyMember(init, i);
    }
  }

  /** A canonical dict with key set {1..n} is the list of its n entries in that order. */
  lemma {:induction false} OneToN(d: Dict, n: nat)
    requires IncreasingKeys(d) && KeysUpTo(d, n)
    ensures |d| == n && forall i :: 0 <= i < n ==> d[i].key == i + 1
  {
    assert d == [] || 1 <= d[0].key <= n;
    if n == 0 {
    } else {
      LastKey(d, n);
      DropLastKey(d, n);
      OneToN(d[..|d| - 1], n - 1);
      forall i | 0 <= i < n - 1 ensures d[i].key == i + 1 {
        assert d[..|d| - 1][i] == d[i];
      }
    }
  }

  /** In an item already in canonical order, every value of a map is in order, and plain keys increase. */
  lemma CanonicalMap(d: Dict)
    requires WellFormed(Map(d)) && Canonical(Map(d)) == Map(d)
    ensures forall i :: 0 <= i < |d| ==> Canonical(d[i].value) == d[i].value
    ensures PlainKeys(d) ==> IncreasingKeys(d)
  {
    var vs := CanonicalEntries(d);
    forall i | 0 <= i < |d| ensures d[i].key < WORD {
      assert WellFormedEntry(d[i]);
    }
    SortSorts(vs, EntryKey);
    assert d == CanonicalDict(d);
    SortCommutes(d);
    SortFixesSorted(d, EntryKey);
    forall i | 0 <= i < |d| ensures Canonical(d[i].value) == d[i].value {
      CanonicalEntriesAt(d, i);
      assert d[i] == Entry(d[i].key, d[i].value, d[i].spelling);
    }
    if PlainKeys(d) { SortedIsIncreasing(d); }
  }

  /** A dict built with increasing keys keeps its order. */
  lemma IncreasingStays(d: Dict)
    requires IncreasingKeys(d) && PlainKeys(d) && forall i :: 0 <= i < |d| ==> d[i].key < WORD
    ensures CanonicalDict(d) == CanonicalEntries(d)
  {
    IncreasingIsSorted(d);
    SortCommutes(d);
    SortFixesSorted(d, EntryKey);
  }

  lemma {:induction false} LookupAt(d: Dict, i: nat)
    requires DistinctKeys(d) && i < |d|
    ensures Lookup(d, d[i].key) == Some(d[i].value)
  {
    if i == 0 {
    } else {
      assert d[0].key != d[i].key;
      LookupAt(d[1..], i - 1);
    }
  }

  lemma {:induction false} LookupNone(d: Dict, k: nat)
    requires k !in Keys(d)
    ensures Lookup(d, k) == None
  {
    assert forall i :: 0 <= i < |d| ==> d[i].key in Keys(d);
  }

  /** Canonical order changes neither the keys of a dict nor, up to order within, its values. */
  lemma CanonicalDictKeys(d: Dict)
    ensures Keys(CanonicalDict(d)) == Keys(d)
  {
    var vs, s := CanonicalEntries(d), CanonicalDict(d);
    SortSorts(vs, EntryKey);
    forall k | k in Keys(d) ensures k in Keys(s) {
      var i :| 0 <= i < |d| && d[i].key == k;
      CanonicalEntriesAt(d, i);
      assert d[i] == Entry(d[i].key, d[i].value, d[i].spelling);
      assert vs[i] in multiset(s);
      var j :| 0 <= j < |s| && s[j] == vs[i];
    }
    forall k | k in Keys(s) ensures k in Keys(d) {
      var j :| 0 <= j < |s| && s[j].key == k;
      assert s[j] in multiset(vs);
      var i :| 0 <= i < |vs| && vs[i] == s[j];
      CanonicalEntriesAt(d, i);
      assert d[i] == Entry(d[i].key, d[i].value, d[i].spelling);
    }
  }

  lemma CanonicalDictPlain(d: Dict)
    ensures PlainKeys(CanonicalDict(d)) <==> PlainKeys(d)
  {
    var vs, s := CanonicalEntries(d), CanonicalDict(d);
    SortSorts(vs, EntryKey);
    forall i | 0 <= i < |d| ensures vs[i].spelling == d[i].spelling && vs[i] in s {
      CanonicalEntriesAt(d, i);
      assert d[i] == Entry(d[i].key, d[i].value, d[i].spelling);
      assert vs[i] in multiset(s);
    }
    forall j | 0 <= j < |s| ensures s[j] in vs {
      assert s[j] in multiset(vs);
    }
  }

  lemma CanonicalDictLookup(d: Dict, k: nat)
    requires WellFormedDict(d)
    ensures match Lookup(d, k)
            case None => Lookup(CanonicalDict(d), k) == None
            case Some(v) => Lookup(CanonicalDict(d), k) == Some(Canonical(v))
  {
    CanonicalDictKeys(d);
    if k in Keys(d) {
      var vs, s := CanonicalEntries(d), CanonicalDict(d);
      var i :| 0 <= i < |d| && d[i].key == k;
      LookupAt(d, i);
      CanonicalEntriesAt(d, i);
      assert d[i] == Entry(d[i].key, d[i].value, d[i].spelling);
      SortSorts(vs, EntryKey);
      assert vs[i] in multiset(s);
      var j :| 0 <= j < |s| && s[j] == vs[i];
      CanonicalWellFormed(Map(d));
      assert WellFormed(Map(d));
      LookupAt(s, j);
    } else {
      LookupNone(d, k);
      LookupNone(CanonicalDict(d), k);
    }
  }
}
