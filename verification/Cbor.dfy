/**
 The CBOR subset the registry's schema uses (RFC 7049): unsigned integers, byte strings,
 text strings, arrays, maps with unsigned integer keys, and null; and beside them the booleans
 and half-precision floats that Python holds equal to unsigned integers, as values and as keys.
 `Loads` is as lenient as cbor2.loads on that subset (any argument width, any key order,
 repeated keys, bytes after the item); `Dumps` is the canonical encoder of section 3.9.
 */
module Cbor {
  import opened Basics
  import opened Utf8

  /**
   A text string is held as its UTF-8 bytes; a map keeps its insertion order, as a dict does.
   `Spelled` is a boolean or a float equal to an unsigned integer, held as its encoding.
   */
  datatype Item =
    | Uint(n: nat)
    | ByteString(bytes: Bytes)
    | Text(utf8: Bytes)
    | Array(items: seq<Item>)
    | Map(entries: Dict)
    | Spelled(encoding: Bytes)
    | Null

  /** Keys are equal when their numbers are; `spelling` is empty for a key written as an unsigned integer. */
  datatype Entry = Entry(key: nat, value: Item, spelling: Bytes := [])

  type Dict = seq<Entry>

  const WORD := 0x1_0000_0000_0000_0000

  function Lookup(d: Dict, k: nat): (r: Option<Item>)
    ensures r.Some? <==> exists i :: 0 <= i < |d| && d[i].key == k
  {
    if d == [] then None
    else if d[0].key == k then Some(d[0].value)
    else Lookup(d[1..], k)
  }

  function Keys(d: Dict): set<nat> {
    set i | 0 <= i < |d| :: d[i].key
  }

  predicate DistinctKeys(d: Dict) {
    forall i, j :: 0 <= i < j < |d| ==> d[i].key != d[j].key
  }

  /** `d[k] = v` on a dict: an existing key keeps its place and its spelling. */
  function Assign(d: Dict, e: Entry): (r: Dict)
    ensures |d| <= |r| <= |d| + 1
  {
    if d == [] then [e]
    else if d[0].key == e.key then [d[0].(value := e.value)] + d[1..]
    else [d[0]] + Assign(d[1..], e)
  }

  lemma {:induction false} AssignAbsent(d: Dict, e: Entry)
    requires forall i :: 0 <= i < |d| ==> d[i].key != e.key
    ensures Assign(d, e) == d + [e]
  {
    if d == [] {
    } else {
      AssignAbsent(d[1..], e);
      assert d == [d[0]] + d[1..];
    }
  }

  lemma {:induction false} AssignMembers(d: Dict, e: Entry)
    requires DistinctKeys(d)
    ensures DistinctKeys(Assign(d, e))
    ensures forall f :: f in Assign(d, e) ==>
              || (f in d && f.key != e.key)
              || (f.key == e.key && f.value == e.value && (f == e || exists g :: g in d && f == g.(value := e.value)))
  {
    if d == [] {
    } else {
      assert d == [d[0]] + d[1..];
      if d[0].key != e.key {
        AssignMembers(d[1..], e);
        var t := Assign(d[1..], e);
        forall j | 0 <= j < |t| ensures t[j].key != d[0].key {
          assert t[j] in t;
          if t[j] in d[1..] {
            var m :| 0 <= m < |d[1..]| && d[1..][m] == t[j];
            assert d[m + 1] == t[j];
          }
        }
      } else {
        forall f | f in d[1..] ensures f.key != e.key {
          var m :| 0 <= m < |d[1..]| && d[1..][m] == f;
          assert d[m + 1] == f;
        }
      }
    }
  }

  // ---------- other spellings of unsigned integers ----------

  function Pow2(n: nat): (r: nat)
    ensures r > 0
  {
    if n == 0 then 1 else 2 * Pow2(n - 1)
  }

  /** The half-precision float with these two bytes, if it is an unsigned integer (and not minus zero). */
  function HalfNumber(hi: byte, lo: byte): Option<nat> {
    var exponent, fraction := hi / 4, hi % 4 * 256 + lo;
    if exponent >= 31 then None
    else if exponent == 0 then if fraction == 0 then Some(0) else None
    else if exponent >= 25 then Some((1024 + fraction) * Pow2(exponent - 25))
    else if (1024 + fraction) % Pow2(25 - exponent) == 0 then Some((1024 + fraction) / Pow2(25 - exponent))
    else None
  }

  /** The unsigned integer that Python holds a boolean or float equal to: False is 0, True is 1. */
  function Numeral(encoding: Bytes): Option<nat> {
    if encoding == [0xF4] then Some(0)
    else if encoding == [0xF5] then Some(1)
    else if |encoding| == 3 && encoding[0] == 0xF9 then HalfNumber(encoding[1], encoding[2])
    else None
  }

  lemma NumeralBound(encoding: Bytes)
    ensures Numeral(encoding).Some? ==> Numeral(encoding).value < WORD
    ensures Numeral(encoding).Some? ==> 1 <= |encoding| <= 3 && encoding[0] / 32 == 7
  {
    assert Pow2(1) == 2 && Pow2(2) == 4 && Pow2(3) == 8 && Pow2(4) == 16 && Pow2(5) == 32;
  }

  /** No key of this dict is a boolean or a float. */
  predicate PlainKeys(d: Dict) {
    forall i :: 0 <= i < |d| ==> d[i].spelling == []
  }

  // ---------- what the encoder can represent ----------

  predicate WellFormed(x: Item) {
    match x
    case Uint(n) => n < WORD
    case ByteString(b) => |b| < WORD
    case Text(t) => |t| < WORD && ValidUtf8(t)
    case Array(items) => |items| < WORD && forall i :: 0 <= i < |items| ==> WellFormed(items[i])
    case Map(entries) =>
      |entries| < WORD && DistinctKeys(entries)
      && forall i :: 0 <= i < |entries| ==> WellFormedEntry(entries[i])
    case Spelled(encoding) => Numeral(encoding).Some?
    case Null => true
  }

  predicate WellFormedKey(e: Entry) {
    e.key < WORD && (e.spelling != [] ==> Numeral(e.spelling) == Some(e.key))
  }

  predicate WellFormedEntry(e: Entry) {
    match e case Entry(_, v, _) => WellFormedKey(e) && WellFormed(v)
  }

  predicate WellFormedDict(d: Dict) {
    |d| < WORD && DistinctKeys(d) && forall i :: 0 <= i < |d| ==> WellFormedEntry(d[i])
  }

  // ---------- encoding ----------

  /** `width` big-endian bytes of n. */
  function BigEndian(n: nat, width: nat): (r: Bytes)
    ensures |r| == width
  {
    if width == 0 then [] else BigEndian(n / 256, width - 1) + [n % 256]
  }

  function FromBigEndian(b: Bytes): nat {
    if b == [] then 0 else 256 * FromBigEndian(b[..|b| - 1]) + b[|b| - 1]
  }

  function Power256(width: nat): (r: nat)
    ensures r > 0
  {
    if width == 0 then 1 else 256 * Power256(width - 1)
  }

  /** Number of argument bytes the shortest head for n needs. */
  function ArgumentWidth(n: nat): nat {
    if n < 24 then 0
    else if n < 0x100 then 1
    else if n < 0x1_0000 then 2
    else if n < 0x1_0000_0000 then 4
    else 8
  }

  function InfoOfWidth(width: nat): nat {
    if width == 1 then 24 else if width == 2 then 25 else if width == 4 then 26 else 27
  }

  function Head(major: nat, n: nat): (r: Bytes)
    requires major < 8 && n < WORD
    ensures 1 <= |r| <= 9
  {
    var w := ArgumentWidth(n);
    if w == 0 then [32 * major + n] else [32 * major + InfoOfWidth(w)] + BigEndian(n, w)
  }

  function KeyBytes(e: Entry): Bytes
    requires e.key < WORD
  {
    if e.spelling == [] then Head(0, e.key) else e.spelling
  }

  /** Items in the order they are held, every head at its shortest. */
  function Plain(x: Item): (r: Bytes)
    requires WellFormed(x)
    ensures |r| > 0
    decreases x, 0
  {
    match x
    case Uint(n) => Head(0, n)
    case ByteString(b) => Head(2, |b|) + b
    case Text(t) => Head(3, |t|) + t
    case Array(items) => Head(4, |items|) + PlainItems(items)
    case Map(entries) => Head(5, |entries|) + PlainEntries(entries)
    case Spelled(encoding) => encoding
    case Null => [0xF6]
  }

  function PlainItems(xs: seq<Item>): Bytes
    requires forall i :: 0 <= i < |xs| ==> WellFormed(xs[i])
    decreases xs, 1
  {
    if xs == [] then [] else Plain(xs[0]) + PlainItems(xs[1..])
  }

  function PlainEntry(e: Entry): Bytes
    requires WellFormedEntry(e)
    decreases e, 0
  {
    match e case Entry(_, v, _) => KeyBytes(e) + Plain(v)
  }

  function PlainEntries(d: Dict): Bytes
    requires forall i :: 0 <= i < |d| ==> WellFormedEntry(d[i])
    decreases d, 1
  {
    if d == [] then [] else PlainEntry(d[0]) + PlainEntries(d[1..])
  }

  /** Section 3.9 orders keys by (length of their encoding, encoding). */
  function EntryKey(e: Entry): Bytes {
    if e.key < WORD && |KeyBytes(e)| < 256 then [|KeyBytes(e)|] + KeyBytes(e) else []
  }

  /** The item with every map in canonical key order. */
  function Canonical(x: Item): Item
    decreases x, 0
  {
    match x
    case Array(items) => Array(CanonicalItems(items))
    case Map(entries) => Map(Sort(CanonicalEntries(entries), EntryKey))
    case _ => x
  }

  function CanonicalItems(xs: seq<Item>): (r: seq<Item>)
    ensures |r| == |xs|
    decreases xs, 1
  {
    if xs == [] then [] else [Canonical(xs[0])] + CanonicalItems(xs[1..])
  }

  function CanonicalEntry(e: Entry): Entry
    decreases e, 0
  {
    match e case Entry(k, v, spelling) => Entry(k, Canonical(v), spelling)
  }

  function CanonicalEntries(d: Dict): (r: Dict)
    ensures |r| == |d|
    decreases d, 1
  {
    if d == [] then [] else [CanonicalEntry(d[0])] + CanonicalEntries(d[1..])
  }

  function CanonicalDict(d: Dict): Dict {
    Sort(CanonicalEntries(d), EntryKey)
  }

  /** cbor2.dumps(x, canonical=True). */
  function Dumps(x: Item): Bytes
    requires WellFormed(x)
  {
    CanonicalWellFormed(x);
    Plain(Canonical(x))
  }

  // ---------- decoding ----------

  datatype Parsed<+T> = Parsed(value: T, rest: Bytes)

  /** The major type and argument at the front of b. */
  function ParseHead(b: Bytes): (r: Option<(nat, nat, Bytes)>)
    ensures r.Some? ==> r.value.0 < 8 && r.value.1 < WORD && |r.value.2| < |b|
    ensures r.Some? ==> r.value.0 * 32 <= b[0] < r.value.0 * 32 + 28
  {
    if b == [] then None
    else
      var major, info := b[0] / 32, b[0] % 32;
      if info < 24 then Some((major, info, b[1..]))
      else if info > 27 then None
      else
        var w := if info == 24 then 1 else if info == 25 then 2 else if info == 26 then 4 else 8;
        var tail := b[1..];
        if |tail| < w then None
        else
          FromBigEndianBound(tail[..w]);
          assert Power256(w) <= WORD by { PowerValues(); }
          Some((major, FromBigEndian(tail[..w]), tail[w..]))
  }

  lemma PowerValues()
    ensures Power256(1) == 0x100 && Power256(2) == 0x1_0000
    ensures Power256(4) == 0x1_0000_0000 && Power256(8) == WORD
  {
    assert Power256(1) == 256 * Power256(0);
    assert Power256(3) == 256 * Power256(2);
    assert Power256(5) == 256 * Power256(4);
    assert Power256(7) == 256 * Power256(6);
    assert Power256(8) == 256 * Power256(7);
  }

  lemma {:induction false} FromBigEndianBound(b: Bytes)
    ensures FromBigEndian(b) < Power256(|b|)
  {
    if b == [] {
    } else {
      FromBigEndianBound(b[..|b| - 1]);
    }
  }

  /** The bytes of b in front of what is left of it. */
  function Consumed(b: Bytes, rest: Bytes): Bytes
    requires |rest| <= |b|
  {
    b[..|b| - |rest|]
  }

  /** A map key: its number, and its encoding where that is not an unsigned integer's. */
  function ParseKey(b: Bytes): (r: Option<(nat, Bytes, Bytes)>)
    ensures r.Some? ==> |r.value.2| < |b| && WellFormedKey(Entry(r.value.0, Null, r.value.1))
  {
    match ParseHead(b)
    case None => None
    case Some((major, n, rest)) =>
      if major == 0 then Some((n, [], rest))
      else
        NumeralBound(Consumed(b, rest));
        match Numeral(Consumed(b, rest))
        case Some(k) => Some((k, Consumed(b, rest), rest))
        case None => None
  }

  function Parse(b: Bytes): (r: Option<Parsed<Item>>)
    ensures r.Some? ==> |r.value.rest| < |b|
    ensures r.Some? ==> WellFormed(r.value.value)
    decreases |b|, 0
  {
    match ParseHead(b)
    case None => None
    case Some((major, n, rest)) =>
      if major == 0 then Some(Parsed(Uint(n), rest))
      else if major == 2 then
        if |rest| < n then None else Some(Parsed(ByteString(rest[..n]), rest[n..]))
      else if major == 3 then
        if |rest| < n || !ValidUtf8(rest[..n]) then None else Some(Parsed(Text(rest[..n]), rest[n..]))
      else if major == 4 then
        (match ParseItems(n, rest)
         case None => None
         case Some(p) => Some(Parsed(Array(p.value), p.rest)))
      else if major == 5 then
        (match ParseEntries(n, rest, [])
         case None => None
         case Some(p) => Some(Parsed(Map(p.value), p.rest)))
      else if b[0] == 0xF6 then Some(Parsed(Null, rest))
      else if Numeral(Consumed(b, rest)).Some? then Some(Parsed(Spelled(Consumed(b, rest)), rest))
      else None
  }

  function ParseItems(n: nat, b: Bytes): (r: Option<Parsed<seq<Item>>>)
    ensures r.Some? ==> |r.value.rest| <= |b| && |r.value.value| == n
    ensures r.Some? ==> forall i :: 0 <= i < n ==> WellFormed(r.value.value[i])
    decreases |b|, 1, n
  {
    if n == 0 then Some(Parsed([], b))
    else
      match Parse(b)
      case None => None
      case Some(head) =>
        match ParseItems(n - 1, head.rest)
        case None => None
        case Some(tail) => Some(Parsed([head.value] + tail.value, tail.rest))
  }

  /** `seen` is the dict built so far: a repeated key replaces the earlier value. */
  function ParseEntries(n: nat, b: Bytes, seen: Dict): (r: Option<Parsed<Dict>>)
    ensures r.Some? ==> |r.value.rest| <= |b| && |r.value.value| <= |seen| + n
    ensures r.Some? && |seen| + n < WORD && WellFormedDict(seen) ==>
              WellFormedDict(r.value.value)
    decreases |b|, 1, n
  {
    if n == 0 then Some(Parsed(seen, b))
    else
      match ParseKey(b)
      case None => None
      case Some((k, spelling, afterKey)) =>
        match Parse(afterKey)
        case None => None
        case Some(v) =>
          AssignWellFormed(seen, Entry(k, v.value, spelling));
          ParseEntries(n - 1, v.rest, Assign(seen, Entry(k, v.value, spelling)))
  }

  lemma AssignWellFormed(d: Dict, e: Entry)
    ensures WellFormedDict(d) && WellFormedEntry(e) && |d| + 1 < WORD ==> WellFormedDict(Assign(d, e))
  {
    if WellFormedDict(d) && WellFormedEntry(e) && |d| + 1 < WORD {
      AssignMembers(d, e);
      var r := Assign(d, e);
      forall i | 0 <= i < |r| ensures WellFormedEntry(r[i]) {
        assert r[i] in r;
        assert r[i] == Entry(r[i].key, r[i].value, r[i].spelling) && e == Entry(e.key, e.value, e.spelling);
        if r[i] != e && r[i].key == e.key {
          var g :| g in d && r[i] == g.(value := e.value);
          assert WellFormedEntry(g);
        }
      }
    }
  }

  /** cbor2.loads: the first item, whatever follows it. */
  function Loads(b: Bytes): (r: Option<Item>)
    ensures r.Some? ==> WellFormed(r.value)
  {
    match Parse(b)
    case None => None
    case Some(p) => Some(p.value)
  }

  predicate IsCanonicalCbor(b: Bytes) {
    Loads(b).Some? && Dumps(Loads(b).value) == b
  }

  // ---------- the encoder and the decoder are inverse ----------

  lemma {:induction false} CanonicalEntriesAt(d: Dict, k: nat)
    requires k < |d|
    ensures CanonicalEntries(d)[k] == CanonicalEntry(d[k])
  {
    if k == 0 {
    } else {
      CanonicalEntriesAt(d[1..], k - 1);
    }
  }

  lemma {:induction false} CanonicalItemsAt(xs: seq<Item>, k: nat)
    requires k < |xs|
    ensures CanonicalItems(xs)[k] == Canonical(xs[k])
  {
    if k == 0 {
    } else {
      CanonicalItemsAt(xs[1..], k - 1);
    }
  }

  /** The key as a number, however it is spelled. */
  function NumberKey(e: Entry): Bytes {
    if e.key < WORD then Head(0, e.key) else []
  }

  lemma KeysAreNumbers(d: Dict)
    requires forall i :: 0 <= i < |d| ==> d[i].key < WORD
    ensures DistinctKeys(d) <==> DistinctBy(d, NumberKey)
  {
    forall i, j | 0 <= i < j < |d| ensures d[i].key == d[j].key <==> NumberKey(d[i]) == NumberKey(d[j]) {
      HeadInverse(0, d[i].key, []);
      HeadInverse(0, d[j].key, []);
      assert Head(0, d[i].key) + [] == Head(0, d[i].key) && Head(0, d[j].key) + [] == Head(0, d[j].key);
    }
  }

  lemma {:induction false} DistinctKeysUnordered(d: Dict, e: Dict)
    requires multiset(d) == multiset(e) && DistinctKeys(d)
    requires forall i :: 0 <= i < |d| ==> d[i].key < WORD
    ensures DistinctKeys(e)
  {
    KeysAreNumbers(d);
    DistinctIsUnordered(d, e, NumberKey);
    forall i | 0 <= i < |e| ensures e[i].key < WORD {
      assert e[i] in multiset(d);
    }
    KeysAreNumbers(e);
  }

  /** Encodings of distinct keys differ, so sorting by encoding never meets a tie. */
  lemma KeysAreSortKeys(d: Dict)
    requires DistinctKeys(d) && forall i :: 0 <= i < |d| ==> WellFormedKey(d[i])
    ensures DistinctBy(d, EntryKey)
  {
    forall i, j | 0 <= i < j < |d| ensures EntryKey(d[i]) != EntryKey(d[j]) {
      KeyInverse(d[i], []);
      KeyInverse(d[j], []);
      assert EntryKey(d[i])[1..] == KeyBytes(d[i]) + [] && EntryKey(d[j])[1..] == KeyBytes(d[j]) + [];
    }
  }

  lemma {:induction false} CanonicalWellFormed(x: Item)
    ensures WellFormed(x) ==> WellFormed(Canonical(x))
    decreases x, 0
  {
    match x
    case Array(items) =>
      forall i | 0 <= i < |items| ensures WellFormed(items[i]) ==> WellFormed(CanonicalItems(items)[i]) {
        CanonicalItemsAt(items, i);
        CanonicalWellFormed(items[i]);
      }
    case Map(entries) =>
      forall i | 0 <= i < |entries|
        ensures WellFormedEntry(entries[i]) ==> WellFormedEntry(CanonicalEntry(entries[i]))
      {
        CanonicalEntryWellFormed(entries[i]);
      }
      if WellFormedDict(entries) { SortedEntriesWellFormed(entries); }
    case _ =>
  }

  lemma {:induction false} CanonicalEntryWellFormed(e: Entry)
    ensures WellFormedEntry(e) ==> WellFormedEntry(CanonicalEntry(e))
    decreases e, 0
  {
    match e case Entry(_, v, _) => CanonicalWellFormed(v);
  }

  lemma SortedEntriesWellFormed(d: Dict)
    requires WellFormedDict(d)
    requires forall i :: 0 <= i < |d| ==> WellFormedEntry(CanonicalEntry(d[i]))
    ensures WellFormedDict(CanonicalDict(d))
  {
    var vs, s := CanonicalEntries(d), CanonicalDict(d);
    forall i | 0 <= i < |d| ensures WellFormedEntry(vs[i]) && vs[i].key == d[i].key < WORD {
      CanonicalEntriesAt(d, i);
      assert d[i] == Entry(d[i].key, d[i].value, d[i].spelling);
    }
    SortSorts(vs, EntryKey);
    DistinctKeysUnordered(vs, s);
    forall i | 0 <= i < |s| ensures WellFormedEntry(s[i]) {
      assert s[i] in multiset(vs);
    }
  }

  /** Only the encodable have an encodable canonical form. */
  lemma {:induction false} WellFormedCanonical(x: Item)
    requires WellFormed(Canonical(x))
    ensures WellFormed(x)
    decreases x, 0
  {
    match x
    case Array(items) =>
      forall i | 0 <= i < |items| ensures WellFormed(items[i]) {
        CanonicalItemsAt(items, i);
        WellFormedCanonical(items[i]);
      }
    case Map(entries) =>
      var vs, s := CanonicalEntries(entries), CanonicalDict(entries);
      SortSorts(vs, EntryKey);
      forall i | 0 <= i < |s| ensures s[i].key < WORD {
        assert WellFormedEntry(s[i]);
      }
      DistinctKeysUnordered(s, vs);
      forall i | 0 <= i < |entries| ensures WellFormedEntry(entries[i]) && vs[i].key == entries[i].key {
        CanonicalEntriesAt(entries, i);
        assert vs[i] in multiset(s);
        WellFormedCanonicalEntry(entries[i]);
      }
    case _ =>
  }

  lemma {:induction false} WellFormedCanonicalEntry(e: Entry)
    requires WellFormedEntry(CanonicalEntry(e))
    ensures WellFormedEntry(e) && CanonicalEntry(e).key == e.key
    decreases e, 0
  {
    match e case Entry(_, v, _) => WellFormedCanonical(v);
  }

  lemma {:induction false} BigEndianInverse(n: nat, width: nat)
    requires n < Power256(width)
    ensures FromBigEndian(BigEndian(n, width)) == n
  {
    if width == 0 {
    } else {
      BigEndianInverse(n / 256, width - 1);
      assert BigEndian(n, width)[..width - 1] == BigEndian(n / 256, width - 1);
    }
  }

  lemma HeadInverse(major: nat, n: nat, t: Bytes)
    requires major < 8 && n < WORD
    ensures ParseHead(Head(major, n) + t) == Some((major, n, t))
  {
    hide ParseHead, FromBigEndian, BigEndian, Power256;
    var w := ArgumentWidth(n);
    if w == 0 {
      ShortHead(major, n, t);
    } else {
      PowerValues();
      BigEndianInverse(n, w);
      WideHead(major, BigEndian(n, w), t);
      Regroup([32 * major + InfoOfWidth(w)], BigEndian(n, w), t);
    }
  }

  lemma ShortHead(major: nat, n: nat, t: Bytes)
    requires major < 8 && n < 24
    ensures ParseHead([32 * major + n] + t) == Some((major, n, t))
  {
    HeadByte(major, n);
    Unglue([32 * major + n], t);
  }

  lemma HeadByte(major: nat, info: nat)
    requires major < 8 && info < 32
    ensures (32 * major + info) / 32 == major && (32 * major + info) % 32 == info
  {
  }

  lemma ParseWide(b: Bytes, major: nat, w: nat)
    requires w == 1 || w == 2 || w == 4 || w == 8
    requires |b| >= 1 + w && b[0] / 32 == major && b[0] % 32 == InfoOfWidth(w)
    ensures ParseHead(b) == Some((major, FromBigEndian(b[1..][..w]), b[1..][w..]))
  {
  }

  lemma WideHead(major: nat, arg: Bytes, t: Bytes)
    requires major < 8 && (|arg| == 1 || |arg| == 2 || |arg| == 4 || |arg| == 8)
    ensures ParseHead([32 * major + InfoOfWidth(|arg|)] + (arg + t)) == Some((major, FromBigEndian(arg), t))
  {
    hide ParseHead, FromBigEndian;
    HeadByte(major, InfoOfWidth(|arg|));
    var first := [32 * major + InfoOfWidth(|arg|)];
    ParseWide(first + (arg + t), major, |arg|);
    Unglue(first, arg + t);
    Unglue(arg, t);
  }

  lemma StringInverse(x: Item, t: Bytes)
    requires WellFormed(x) && (x.ByteString? || x.Text?)
    ensures Parse(Plain(x) + t) == Some(Parsed(x, t))
  {
    var major, b := if x.Text? then 3 else 2, if x.Text? then x.utf8 else x.bytes;
    HeadInverse(major, |b|, b + t);
    Regroup(Head(major, |b|), b, t);
    Unglue(b, t);
  }

  lemma ParseArray(b: Bytes, n: nat, body: Bytes, items: seq<Item>, t: Bytes)
    requires ParseHead(b) == Some((4, n, body)) && ParseItems(n, body) == Some(Parsed(items, t))
    ensures Parse(b) == Some(Parsed(Array(items), t))
  {
  }

  lemma ParseMap(b: Bytes, n: nat, body: Bytes, d: Dict, t: Bytes)
    requires ParseHead(b) == Some((5, n, body)) && ParseEntries(n, body, []) == Some(Parsed(d, t))
    ensures Parse(b) == Some(Parsed(Map(d), t))
  {
  }

  lemma {:induction false} PlainInverse(x: Item, t: Bytes)
    requires WellFormed(x)
    ensures Parse(Plain(x) + t) == Some(Parsed(x, t))
    decreases x, 0
  {
    match x
    case Uint(n) => HeadInverse(0, n, t);
    case ByteString(_) => StringInverse(x, t);
    case Text(_) => StringInverse(x, t);
    case Array(items) =>
      var head, body := Head(4, |items|), PlainItems(items);
      PlainItemsInverse(items, t);
      HeadInverse(4, |items|, body + t);
      ParseArray(head + (body + t), |items|, body + t, items, t);
      Regroup(head, body, t);
    case Map(entries) =>
      var head, body := Head(5, |entries|), PlainEntries(entries);
      assert [] + entries == entries;
      PlainEntriesInverse(entries, [], t);
      HeadInverse(5, |entries|, body + t);
      ParseMap(head + (body + t), |entries|, body + t, entries, t);
      Regroup(head, body, t);
    case Spelled(encoding) => SpellingInverse(encoding, t);
    case Null =>
      Unglue([0xF6], t);
  }

  lemma SpelledHead(encoding: Bytes, t: Bytes)
    requires Numeral(encoding).Some?
    ensures var r := ParseHead(encoding + t);
            r.Some? && r.value.0 == 7 && r.value.2 == t && Consumed(encoding + t, t) == encoding
  {
    hide ParseHead, FromBigEndian, HalfNumber;
    Unglue(encoding, t);
    if |encoding| == 1 {
      ShortHead(7, encoding[0] as int - 0xE0, t);
    } else {
      var arg := encoding[1..];
      WideHead(7, arg, t);
      assert encoding == [32 * 7 + InfoOfWidth(2)] + arg;
      Regroup([32 * 7 + InfoOfWidth(2)], arg, t);
    }
  }

  lemma SpellingInverse(encoding: Bytes, t: Bytes)
    requires Numeral(encoding).Some?
    ensures Parse(encoding + t) == Some(Parsed(Spelled(encoding), t))
  {
    hide ParseHead;
    SpelledHead(encoding, t);
    assert (encoding + t)[0] == encoding[0] != 0xF6;
  }

  lemma KeyInverse(e: Entry, t: Bytes)
    requires WellFormedKey(e)
    ensures ParseKey(KeyBytes(e) + t) == Some((e.key, e.spelling, t))
    ensures 1 <= |KeyBytes(e)| <= 9
  {
    hide ParseHead;
    if e.spelling == [] {
      HeadInverse(0, e.key, t);
    } else {
      SpelledHead(e.spelling, t);
    }
  }

  lemma {:induction false} PlainItemsInverse(xs: seq<Item>, t: Bytes)
    requires forall i :: 0 <= i < |xs| ==> WellFormed(xs[i])
    ensures ParseItems(|xs|, PlainItems(xs) + t) == Some(Parsed(xs, t))
    decreases xs, 1
  {
    if xs == [] {
      assert PlainItems(xs) + t == t;
    } else {
      PlainInverse(xs[0], PlainItems(xs[1..]) + t);
      PlainItemsInverse(xs[1..], t);
      Regroup(Plain(xs[0]), PlainItems(xs[1..]), t);
      assert xs == [xs[0]] + xs[1..];
    }
  }

  lemma {:induction false} PlainEntryInverse(e: Entry, t: Bytes)
    requires WellFormedEntry(e)
    ensures ParseKey(PlainEntry(e) + t) == Some((e.key, e.spelling, Plain(e.value) + t))
    ensures Parse(Plain(e.value) + t) == Some(Parsed(e.value, t))
    decreases e, 0
  {
    match e case Entry(_, v, _) =>
      KeyInverse(e, Plain(v) + t);
      Regroup(KeyBytes(e), Plain(v), t);
      PlainInverse(v, t);
  }

  lemma ParseEntryStep(b: Bytes, n: nat, seen: Dict, e: Entry, body: Bytes, tail: Bytes)
    requires ParseKey(b) == Some((e.key, e.spelling, body)) && Parse(body) == Some(Parsed(e.value, tail))
    ensures ParseEntries(n + 1, b, seen) == ParseEntries(n, tail, Assign(seen, e))
  {
    assert e == Entry(e.key, e.value, e.spelling);
  }

  lemma {:induction false} PlainEntriesInverse(d: Dict, seen: Dict, t: Bytes)
    requires forall i :: 0 <= i < |d| ==> WellFormedEntry(d[i])
    requires DistinctKeys(seen + d)
    ensures ParseEntries(|d|, PlainEntries(d) + t, seen) == Some(Parsed(seen + d, t))
    decreases d, 1
  {
    if d == [] {
      assert PlainEntries(d) + t == t && seen + d == seen;
    } else {
      var e, rest := d[0], d[1..];
      assert seen + d == seen + [e] + rest;
      PlainEntriesInverse(rest, seen + [e], t);
      AssignFresh(seen, e, rest);
      PlainFirstEntry(e, rest, seen, t);
      Regroup(PlainEntry(e), PlainEntries(rest), t);
    }
  }

  lemma PlainFirstEntry(e: Entry, rest: Dict, seen: Dict, t: Bytes)
    requires WellFormedEntry(e) && forall i :: 0 <= i < |rest| ==> WellFormedEntry(rest[i])
    ensures ParseEntries(|rest| + 1, PlainEntry(e) + (PlainEntries(rest) + t), seen)
            == ParseEntries(|rest|, PlainEntries(rest) + t, Assign(seen, e))
    decreases e, 1
  {
    var tail := PlainEntries(rest) + t;
    PlainEntryInverse(e, tail);
    ParseEntryStep(PlainEntry(e) + tail, |rest|, seen, e, Plain(e.value) + tail, tail);
  }

  lemma AssignFresh(seen: Dict, e: Entry, rest: Dict)
    requires DistinctKeys(seen + [e] + rest)
    ensures Assign(seen, e) == seen + [e]
  {
    var all := seen + [e] + rest;
    forall i | 0 <= i < |seen| ensures seen[i].key != e.key {
      assert all[i] == seen[i] && all[|seen|] == e;
    }
    AssignAbsent(seen, e);
  }

  lemma {:induction false} CanonicalIdempotent(x: Item)
    requires WellFormed(x)
    ensures Canonical(Canonical(x)) == Canonical(x)
    decreases x, 0
  {
    match x
    case Array(items) =>
      var c := CanonicalItems(items);
      forall i | 0 <= i < |items| ensures CanonicalItems(c)[i] == c[i] {
        CanonicalItemsAt(items, i);
        CanonicalItemsAt(c, i);
        CanonicalIdempotent(items[i]);
      }
      assert CanonicalItems(c) == c;
    case Map(entries) =>
      forall i | 0 <= i < |entries|
        ensures CanonicalEntry(CanonicalEntry(entries[i])) == CanonicalEntry(entries[i])
      {
        CanonicalEntryIdempotent(entries[i]);
      }
      CanonicalDictFixed(entries);
    case _ =>
  }

  lemma {:induction false} CanonicalEntryIdempotent(e: Entry)
    requires WellFormedEntry(e)
    ensures CanonicalEntry(CanonicalEntry(e)) == CanonicalEntry(e)
    decreases e, 0
  {
    match e case Entry(_, v, _) => CanonicalIdempotent(v);
  }

  lemma CanonicalDictFixed(d: Dict)
    requires forall i :: 0 <= i < |d| ==> CanonicalEntry(CanonicalEntry(d[i])) == CanonicalEntry(d[i])
    ensures CanonicalDict(CanonicalDict(d)) == CanonicalDict(d)
  {
    var vs, s := CanonicalEntries(d), CanonicalDict(d);
    SortSorts(vs, EntryKey);
    forall i | 0 <= i < |s| ensures CanonicalEntries(s)[i] == s[i] {
      assert s[i] in multiset(vs);
      var k :| 0 <= k < |vs| && vs[k] == s[i];
      CanonicalEntriesAt(d, k);
      CanonicalEntriesAt(s, i);
    }
    assert CanonicalEntries(s) == s;
    SortFixesSorted(s, EntryKey);
  }

  /** decode(encode(x)) is x with its maps in canonical order. */
  lemma LoadsDumps(x: Item)
    requires WellFormed(x)
    ensures Loads(Dumps(x)) == Some(Canonical(x))
  {
    CanonicalWellFormed(x);
    PlainInverse(Canonical(x), []);
    assert Dumps(x) + [] == Dumps(x);
  }

  /** encode(decode(b)) == b, and the item decoded from canonical bytes is already in order. */
  lemma CanonicalBytesDecodeInOrder(b: Bytes)
    requires IsCanonicalCbor(b)
    ensures Dumps(Loads(b).value) == b
    ensures Canonical(Loads(b).value) == Loads(b).value
  {
    LoadsDumps(Loads(b).value);
  }

  /** is_canonical_cbor accepts exactly the encoder's image. */
  lemma CanonicalIffEncoded(b: Bytes)
    ensures IsCanonicalCbor(b) <==> exists x :: WellFormed(x) && Dumps(x) == b
  {
    if IsCanonicalCbor(b) {
      assert WellFormed(Loads(b).value);
    }
    if x :| WellFormed(x) && Dumps(x) == b {
      LoadsDumps(x);
      CanonicalIdempotent(x);
      CanonicalWellFormed(x);
    }
  }

  /** Two values encode alike exactly when they differ only in key order. */
  lemma DumpsInjective(x: Item, y: Item)
    requires WellFormed(x) && WellFormed(y)
    ensures Dumps(x) == Dumps(y) <==> Canonical(x) == Canonical(y)
  {
    LoadsDumps(x);
    LoadsDumps(y);
  }

  /** Canonical key order ignores the insertion order of a dict. */
  lemma CanonicalDictUnordered(d: Dict, e: Dict)
    requires WellFormedDict(d) && multiset(d) == multiset(e)
    ensures CanonicalDict(d) == CanonicalDict(e)
  {
    forall i | 0 <= i < |d| ensures WellFormedKey(d[i]) {
      assert WellFormedEntry(d[i]);
    }
    KeysAreSortKeys(d);
    SortIsUnordered(d, e, EntryKey);
    SortCommutes(d);
    SortCommutes(e);
  }

  lemma {:induction false} InsertCommutes(x: Entry, d: Dict)
    ensures Insert(CanonicalEntry(x), CanonicalEntries(d), EntryKey) == CanonicalEntries(Insert(x, d, EntryKey))
  {
    if d != [] && BytesLess(EntryKey(d[0]), EntryKey(x)) {
      InsertCommutes(x, d[1..]);
    }
  }

  lemma {:induction false} SortCommutes(d: Dict)
    ensures CanonicalDict(d) == CanonicalEntries(Sort(d, EntryKey))
  {
    if d == [] {
    } else {
      SortCommutes(d[1..]);
      InsertCommutes(d[0], Sort(d[1..], EntryKey));
    }
  }
}
