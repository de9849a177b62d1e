/**
 The walk over protobuf fields that decides whether a DHT message carried its type on the
 wire (`_contains_type_field`), against messages built field by field.
 */
module MessageFields {
  import opened Basics
  import opened Frames

  /** PUT_VALUE 0, GET_VALUE 1, ADD_PROVIDER 2, GET_PROVIDERS 3, FIND_NODE 4, PING 5. */
  const LAST_TYPE := 5

  /** The walk from a field boundary on: None where it raises on an overlong varint. */
  function Walk(rest: Bytes): Option<bool>
    decreases |rest|, 0
  {
    if rest == [] then Some(false)
    else
      VarintSize(rest, 0, 0, 1);
      match VarintPrefix(rest)
      case Malformed => None
      case Incomplete => Some(false)
      case Length(key, keySize) => WalkBody(key / 8, key % 8, rest[keySize..])
  }

  function WalkBody(number: nat, wireType: nat, body: Bytes): Option<bool>
    decreases |body|, 2
  {
    VarintSize(body, 0, 0, 1);
    if wireType == 1 then WalkPast(body, 8)
    else if wireType == 5 then WalkPast(body, 4)
    else if wireType != 0 && wireType != 2 then Some(false)
    else
      match VarintPrefix(body)
      case Malformed => None
      case Incomplete => Some(false)
      case Length(n, size) =>
        if wireType == 2 then WalkPast(body, size + n)
        else if number == 1 then Some(n <= LAST_TYPE)
        else WalkPast(body, size)
  }

  function WalkPast(body: Bytes, n: nat): Option<bool>
    decreases |body|, 1
  {
    if n > |body| then Some(false) else Walk(body[n..])
  }

  /** _contains_type_field: the loop over offsets. */
  method ContainsTypeField(payload: Bytes) returns (r: Option<bool>)
    ensures r == Walk(payload)
  {
    var offset := 0;
    while offset < |payload|
      invariant offset <= |payload| && Walk(payload) == Walk(payload[offset..])
    {
      var rest := payload[offset..];
      VarintSize(rest, 0, 0, 1);
      var tag := DecodeVarintPrefix(rest);
      if tag.Malformed? { return None; }
      if tag.Incomplete? { return Some(false); }
      var number, wireType := tag.value / 8, tag.value % 8;
      offset := offset + tag.size;
      var body := payload[offset..];
      assert body == rest[tag.size..] && Walk(rest) == WalkBody(number, wireType, body);
      VarintSize(body, 0, 0, 1);
      var next := offset;
      if wireType == 0 || wireType == 2 {
        var value := DecodeVarintPrefix(body);
        if value.Malformed? { return None; }
        if value.Incomplete? { return Some(false); }
        if number == 1 && wireType == 0 { return Some(value.value <= LAST_TYPE); }
        next := offset + value.size + if wireType == 2 then value.value else 0;
      } else if wireType == 1 {
        next := offset + 8;
      } else if wireType == 5 {
        next := offset + 4;
      } else {
        return Some(false);
      }
      assert Walk(payload) == WalkPast(body, next - offset);
      if next > |payload| { return Some(false); }
      assert payload[next..] == body[next - offset..];
      offset := next;
    }
    r := Some(false);
  }

  // ---------- messages as lists of fields ----------

  datatype Field =
    | VarintField(number: nat, value: nat)
    | Fixed64(number: nat, bytes: Bytes)
    | Delimited(number: nat, bytes: Bytes)
    | Fixed32(number: nat, bytes: Bytes)

  function WireType(f: Field): nat {
    match f case VarintField(_, _) => 0 case Fixed64(_, _) => 1 case Delimited(_, _) => 2 case Fixed32(_, _) => 5
  }

  function EncodeBody(f: Field): Bytes {
    match f
    case VarintField(_, v) => Encode(v)
    case Delimited(_, b) => Encode(|b|) + b
    case _ => f.bytes
  }

  function EncodeField(f: Field): Bytes {
    Encode(8 * f.number + WireType(f)) + EncodeBody(f)
  }

  function EncodeFields(fs: seq<Field>): Bytes {
    if fs == [] then [] else EncodeField(fs[0]) + EncodeFields(fs[1..])
  }

  /** Every varint fits ten bytes, and the fixed-width bodies have their width. */
  predicate Encodable(f: Field) {
    && |Encode(8 * f.number + WireType(f))| <= 10
    && match f
       case VarintField(_, v) => |Encode(v)| <= 10
       case Delimited(_, b) => |Encode(|b|)| <= 10
       case Fixed64(_, b) => |b| == 8
       case Fixed32(_, b) => |b| == 4
  }

  predicate IsType(f: Field) {
    f.VarintField? && f.number == 1
  }

  /** The first field that could be the message type is a known one. */
  predicate FirstTypeIsKnown(fs: seq<Field>) {
    fs != [] && if IsType(fs[0]) then fs[0].value <= LAST_TYPE else FirstTypeIsKnown(fs[1..])
  }

  lemma WalkField(f: Field, tail: Bytes)
    requires Encodable(f)
    ensures Walk(EncodeField(f) + tail) == if IsType(f) then Some(f.value <= LAST_TYPE) else Walk(tail)
  {
    hide VarintPrefix, Encode;
    var key, body := 8 * f.number + WireType(f), EncodeBody(f) + tail;
    EncodingDecodes(key, body);
    Regroup(Encode(key), EncodeBody(f), tail);
    assert key / 8 == f.number && key % 8 == WireType(f);
    assert Walk(EncodeField(f) + tail) == WalkBody(f.number, WireType(f), body);
    match f
    case VarintField(_, v) =>
      EncodingDecodes(v, tail);
      assert IsType(f) || WalkBody(f.number, 0, body) == WalkPast(body, |Encode(v)|);
    case Delimited(_, b) =>
      EncodingDecodes(|b|, b + tail);
      Regroup(Encode(|b|), b, tail);
      assert WalkBody(f.number, 2, body) == WalkPast(body, |Encode(|b|)| + |b|);
      Unglue(Encode(|b|) + b, tail);
    case Fixed64(_, b) =>
      assert WalkBody(f.number, 1, body) == WalkPast(body, 8);
      Unglue(b, tail);
    case Fixed32(_, b) =>
      assert WalkBody(f.number, 5, body) == WalkPast(body, 4);
      Unglue(b, tail);
  }

  /** Fields in any order, followed by anything: the first type field decides, or what follows does. */
  lemma {:induction false} WalkFields(fs: seq<Field>, tail: Bytes)
    requires forall i :: 0 <= i < |fs| ==> Encodable(fs[i])
    ensures Walk(EncodeFields(fs) + tail) ==
            if exists i :: 0 <= i < |fs| && IsType(fs[i]) then Some(FirstTypeIsKnown(fs)) else Walk(tail)
  {
    if fs == [] {
      assert [] + tail == tail;
    } else {
      var rest := fs[1..];
      WalkFields(rest, tail);
      Regroup(EncodeField(fs[0]), EncodeFields(rest), tail);
      WalkField(fs[0], EncodeFields(rest) + tail);
      if !IsType(fs[0]) {
        assert (exists i :: 0 <= i < |fs| && IsType(fs[i])) <==> exists i :: 0 <= i < |rest| && IsType(rest[i]) by {
          assert forall i :: 0 < i < |fs| ==> fs[i] == rest[i - 1];
          assert forall i :: 0 <= i < |rest| ==> rest[i] == fs[i + 1];
        }
      }
    }
  }

  /** On a message of any fields in any order: true exactly when its first type field is a known type. */
  lemma TypeFieldFound(fs: seq<Field>)
    requires forall i :: 0 <= i < |fs| ==> Encodable(fs[i])
    ensures Walk(EncodeFields(fs)) == Some(FirstTypeIsKnown(fs))
  {
    WalkFields(fs, []);
    assert EncodeFields(fs) + [] == EncodeFields(fs);
    if forall i :: 0 <= i < |fs| ==> !IsType(fs[i]) { NoTypeIsKnown(fs); }
  }

  lemma {:induction false} NoTypeIsKnown(fs: seq<Field>)
    requires forall i :: 0 <= i < |fs| ==> !IsType(fs[i])
    ensures !FirstTypeIsKnown(fs)
  {
    if fs == [] {
    } else {
      NoTypeIsKnown(fs[1..]);
    }
  }

  /** Why the walk stops after a tag: a wire type it does not know, or a value that is cut short. */
  predicate CutShort(wireType: nat, rest: Bytes) {
    || wireType in {3, 4, 6, 7}
    || (wireType == 1 && |rest| < 8)
    || (wireType == 5 && |rest| < 4)
    || (wireType in {0, 2} && VarintPrefix(rest).Incomplete?)
    || (wireType == 2 && VarintPrefix(rest).Length? && |rest| < VarintPrefix(rest).size + VarintPrefix(rest).value)
  }

  /**
   A message without a type field that then breaks off is untyped; one with an overlong varint,
   as a tag or as a value, is an error.
   */
  lemma BrokenMessage(fs: seq<Field>, number: nat, wireType: nat, rest: Bytes, tail: Bytes)
    requires forall i :: 0 <= i < |fs| ==> Encodable(fs[i]) && !IsType(fs[i])
    requires wireType < 8 && |Encode(8 * number + wireType)| <= 10
    ensures CutShort(wireType, rest) ==>
              Walk(EncodeFields(fs) + (Encode(8 * number + wireType) + rest)) == Some(false)
    ensures wireType in {0, 2} && VarintPrefix(rest).Malformed? ==>
              Walk(EncodeFields(fs) + (Encode(8 * number + wireType) + rest)) == None
    ensures VarintPrefix(tail).Incomplete? ==> Walk(EncodeFields(fs) + tail) == Some(false)
    ensures VarintPrefix(tail).Malformed? ==> Walk(EncodeFields(fs) + tail) == None
  {
    hide VarintPrefix, Encode, WalkBody, Walk;
    WalkFields(fs, Encode(8 * number + wireType) + rest);
    WalkFields(fs, tail);
    WalkTag(number, wireType, rest);
    BrokenBody(number, wireType, rest);
    BrokenTag(tail);
  }

  lemma WalkTag(number: nat, wireType: nat, rest: Bytes)
    requires wireType < 8 && |Encode(8 * number + wireType)| <= 10
    ensures Walk(Encode(8 * number + wireType) + rest) == WalkBody(number, wireType, rest)
  {
    hide VarintPrefix, Encode, WalkBody;
    var key := 8 * number + wireType;
    EncodingDecodes(key, rest);
    assert key / 8 == number && key % 8 == wireType;
  }

  lemma BrokenBody(number: nat, wireType: nat, rest: Bytes)
    requires wireType < 8
    ensures CutShort(wireType, rest) ==> WalkBody(number, wireType, rest) == Some(false)
    ensures wireType in {0, 2} && VarintPrefix(rest).Malformed? ==> WalkBody(number, wireType, rest) == None
  {
    hide VarintPrefix, Walk;
  }

  lemma BrokenTag(tail: Bytes)
    ensures VarintPrefix(tail).Incomplete? ==> Walk(tail) == Some(false)
    ensures VarintPrefix(tail).Malformed? ==> Walk(tail) == None
  {
  }
}
