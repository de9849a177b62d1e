/** Bytes, optional values, and the stable key sort the wire formats rely on. */
module Basics {

  datatype Option<+T> = None | Some(value: T)

  type byte = b: int | 0 <= b < 256

  type Bytes = seq<byte>

  /** Python's `<` on byte strings. */
  predicate BytesLess(a: Bytes, b: Bytes) {
    |b| > 0 && (|a| == 0 || a[0] < b[0] || (a[0] == b[0] && BytesLess(a[1..], b[1..])))
  }

  lemma {:induction false} BytesLessTotal(a: Bytes, b: Bytes)
    ensures BytesLess(a, b) || BytesLess(b, a) || a == b
    ensures !(BytesLess(a, b) && BytesLess(b, a))
    ensures !BytesLess(a, a)
    decreases |a|
  {
    if |a| == 0 {
    } else {
      BytesLessTotal(a[1..], a[1..]);
      if |b| > 0 && a[0] == b[0] {
        BytesLessTotal(a[1..], b[1..]);
        assert a == [a[0]] + a[1..] && b == [b[0]] + b[1..];
      }
    }
  }

  lemma {:induction false} BytesLessTransitive(a: Bytes, b: Bytes, c: Bytes)
    requires !BytesLess(b, a) && !BytesLess(c, b)
    ensures !BytesLess(c, a)
    decreases |a|
  {
    if |a| > 0 && |b| > 0 && |c| > 0 && a[0] == b[0] == c[0] {
      BytesLessTransitive(a[1..], b[1..], c[1..]);
    }
  }

  lemma SubsetSize<T>(a: set<T>, b: set<T>)
    requires a <= b
    ensures |a| <= |b|
  {
    assert b == a + (b - a);
  }

  // ---------- sorting by a byte-string key ----------

  predicate SortedBy<T>(s: seq<T>, key: T -> Bytes) {
    forall i, j :: 0 <= i < j < |s| ==> !BytesLess(key(s[j]), key(s[i]))
  }

  predicate DistinctBy<T>(s: seq<T>, key: T -> Bytes) {
    forall i, j :: 0 <= i < j < |s| ==> key(s[i]) != key(s[j])
  }

  function Insert<T>(x: T, s: seq<T>, key: T -> Bytes): (r: seq<T>)
    ensures |r| == |s| + 1
  {
    if s == [] then [x]
    else if BytesLess(key(s[0]), key(x)) then [s[0]] + Insert(x, s[1..], key)
    else [x] + s
  }

  /** Python's stable `sorted(s, key=key)`. */
  function Sort<T>(s: seq<T>, key: T -> Bytes): (r: seq<T>)
    ensures |r| == |s|
  {
    if s == [] then [] else Insert(s[0], Sort(s[1..], key), key)
  }

  lemma {:induction false} InsertSorts<T>(x: T, s: seq<T>, key: T -> Bytes)
    requires SortedBy(s, key)
    ensures SortedBy(Insert(x, s, key), key)
    ensures multiset(Insert(x, s, key)) == multiset([x]) + multiset(s)
  {
    if s == [] {
    } else if BytesLess(key(s[0]), key(x)) {
      assert s == [s[0]] + s[1..];
      assert SortedBy(s[1..], key);
      InsertSorts(x, s[1..], key);
      var t := Insert(x, s[1..], key);
      forall j | 0 <= j < |t| ensures !BytesLess(key(t[j]), key(s[0])) {
        assert t[j] in multiset(t);
        if t[j] in s[1..] {
          var k :| 0 <= k < |s[1..]| && s[1..][k] == t[j];
          assert s[k + 1] == t[j];
        } else {
          assert t[j] == x;
          BytesLessTotal(key(s[0]), key(x));
        }
      }
    } else {
      var r := [x] + s;
      forall j | 0 < j < |r| ensures !BytesLess(key(r[j]), key(x)) {
        if j > 1 { BytesLessTransitive(key(x), key(s[0]), key(s[j - 1])); }
      }
    }
  }

  lemma {:induction false} SortSorts<T>(s: seq<T>, key: T -> Bytes)
    ensures SortedBy(Sort(s, key), key)
    ensures multiset(Sort(s, key)) == multiset(s)
  {
    if s == [] {
    } else {
      assert s == [s[0]] + s[1..];
      SortSorts(s[1..], key);
      InsertSorts(s[0], Sort(s[1..], key), key);
    }
  }

  lemma {:induction false} SortFixesSorted<T>(s: seq<T>, key: T -> Bytes)
    requires SortedBy(s, key)
    ensures Sort(s, key) == s
  {
    if s == [] {
    } else {
      assert SortedBy(s[1..], key);
      SortFixesSorted(s[1..], key);
      assert s == [s[0]] + s[1..];
    }
  }

  lemma WithoutOne<T>(s: seq<T>, i: nat)
    requires i < |s|
    ensures multiset(s[..i] + s[i + 1..]) == multiset(s) - multiset{s[i]}
  {
    assert s == s[..i] + [s[i]] + s[i + 1..];
  }

  lemma PairsCarryOver<T>(s: seq<T>, t: seq<T>, i: nat, j: nat) returns (a: nat, b: nat)
    requires multiset(s) == multiset(t) && i < j < |t|
    ensures a < |s| && b < |s| && a != b && s[a] == t[i] && s[b] == t[j]
  {
    assert t[i] in multiset(s);
    a :| 0 <= a < |s| && s[a] == t[i];
    WithoutOne(s, a);
    WithoutOne(t, i);
    var s', t' := s[..a] + s[a + 1..], t[..i] + t[i + 1..];
    assert t'[j - 1] == t[j] && t[j] in multiset(s');
    var c :| 0 <= c < |s'| && s'[c] == t[j];
    b := if c < a then c else c + 1;
  }

  /** Distinctness of keys only depends on which elements occur. */
  lemma DistinctIsUnordered<T>(s: seq<T>, t: seq<T>, key: T -> Bytes)
    requires multiset(s) == multiset(t) && DistinctBy(s, key)
    ensures DistinctBy(t, key)
  {
    forall i, j | 0 <= i < j < |t| ensures key(t[i]) != key(t[j]) {
      var a, b := PairsCarryOver(s, t, i, j);
      assert key(s[a]) != key(s[b]) by { assert a < b || b < a; }
    }
  }

  lemma {:induction false} SortedIsUnique<T>(s: seq<T>, t: seq<T>, key: T -> Bytes)
    requires multiset(s) == multiset(t) && DistinctBy(s, key)
    requires SortedBy(s, key) && SortedBy(t, key)
    ensures s == t
    decreases |s|
  {
    assert |multiset(s)| == |s| && |multiset(t)| == |t|;
    if s == [] {
    } else {
      SortedHeadsAgree(s, t, key);
      WithoutFirst(s);
      WithoutFirst(t);
      SortedIsUnique(s[1..], t[1..], key);
      assert s == [s[0]] + s[1..] && t == [t[0]] + t[1..];
    }
  }

  lemma WithoutFirst<T>(s: seq<T>)
    requires s != []
    ensures multiset(s[1..]) == multiset(s) - multiset{s[0]}
  {
    assert s == [s[0]] + s[1..];
  }

  lemma SortedHeadsAgree<T>(s: seq<T>, t: seq<T>, key: T -> Bytes)
    requires multiset(s) == multiset(t) && DistinctBy(s, key) && s != [] && t != []
    requires SortedBy(s, key) && SortedBy(t, key)
    ensures s[0] == t[0]
  {
    assert s[0] in multiset(t) && t[0] in multiset(s);
    var i :| 0 <= i < |s| && s[i] == t[0];
    var j :| 0 <= j < |t| && t[j] == s[0];
    BytesLessTotal(key(s[0]), key(t[0]));
  }

  /** Appending: how concatenations regroup and come apart again. */
  lemma Regroup<T>(a: seq<T>, b: seq<T>, c: seq<T>)
    ensures a + b + c == a + (b + c)
  {
  }

  lemma Unglue<T>(a: seq<T>, b: seq<T>)
    ensures (a + b)[..|a|] == a && (a + b)[|a|..] == b
  {
  }

  /** Sorting forgets the input order when the keys are distinct. */
  lemma SortIsUnordered<T>(s: seq<T>, t: seq<T>, key: T -> Bytes)
    requires multiset(s) == multiset(t) && DistinctBy(s, key)
    ensures Sort(s, key) == Sort(t, key)
  {
    SortSorts(s, key);
    SortSorts(t, key);
    DistinctIsUnordered(s, Sort(s, key), key);
    SortedIsUnique(Sort(s, key), Sort(t, key), key);
  }

  // ---------- the sort is stable ----------

  function InsertAll<T>(s: seq<T>, t: seq<T>, key: T -> Bytes): seq<T> {
    if s == [] then t else Insert(s[0], InsertAll(s[1..], t, key), key)
  }

  lemma {:induction false} SortOfAppend<T>(s: seq<T>, t: seq<T>, key: T -> Bytes)
    ensures Sort(s + t, key) == InsertAll(s, Sort(t, key), key)
  {
    if s == [] {
      assert s + t == t;
    } else {
      assert (s + t)[1..] == s[1..] + t;
      SortOfAppend(s[1..], t, key);
    }
  }

  lemma {:induction false} InsertsCommute<T>(x: T, y: T, t: seq<T>, key: T -> Bytes)
    requires BytesLess(key(y), key(x))
    ensures Insert(x, Insert(y, t, key), key) == Insert(y, Insert(x, t, key), key)
  {
    BytesLessTotal(key(x), key(y));
    if t == [] {
    } else {
      BytesLessTotal(key(x), key(t[0]));
      BytesLessTotal(key(y), key(t[0]));
      if BytesLess(key(t[0]), key(y)) {
        if !BytesLess(key(t[0]), key(x)) { BytesLessTransitive(key(y), key(x), key(t[0])); }
        InsertsCommute(x, y, t[1..], key);
      }
    }
  }

  lemma {:induction false} InsertAllOfInsert<T>(x: T, s: seq<T>, t: seq<T>, key: T -> Bytes)
    ensures InsertAll(Insert(x, s, key), t, key) == Insert(x, InsertAll(s, t, key), key)
  {
    if s != [] && BytesLess(key(s[0]), key(x)) {
      InsertAllOfInsert(x, s[1..], t, key);
      InsertsCommute(x, s[0], InsertAll(s[1..], t, key), key);
    } else {
      assert ([x] + s)[1..] == s;
    }
  }

  lemma {:induction false} InsertAllOfSort<T>(s: seq<T>, t: seq<T>, key: T -> Bytes)
    ensures InsertAll(Sort(s, key), t, key) == InsertAll(s, t, key)
  {
    if s == [] {
    } else {
      InsertAllOfSort(s[1..], t, key);
      InsertAllOfInsert(s[0], Sort(s[1..], key), t, key);
    }
  }

  /** Sorting early changes nothing: ties keep their input order. */
  lemma SortAbsorbs<T>(s: seq<T>, t: seq<T>, key: T -> Bytes)
    ensures Sort(Sort(s, key) + t, key) == Sort(s + t, key)
  {
    SortOfAppend(s, t, key);
    SortOfAppend(Sort(s, key), t, key);
    InsertAllOfSort(s, Sort(t, key), key);
  }
}
