/** Text as bytes: UTF-8 (section 4 of RFC 3629), and why the check accepts exactly encoded text. */
module Utf8 {
  import opened Basics

  function Utf8SequenceLength(b: Bytes): (n: nat)
    requires |b| > 0
    ensures n <= |b|
  {
    var cont := (i: nat) requires i < |b| => 0x80 <= b[i] <= 0xBF;
    if b[0] <= 0x7F then 1
    else if |b| >= 2 && 0xC2 <= b[0] <= 0xDF && cont(1) then 2
    else if |b| >= 3 && 0xE0 <= b[0] <= 0xEF && cont(1) && cont(2)
            && (b[0] == 0xE0 ==> b[1] >= 0xA0) && (b[0] == 0xED ==> b[1] <= 0x9F) then 3
    else if |b| >= 4 && 0xF0 <= b[0] <= 0xF4 && cont(1) && cont(2) && cont(3)
            && (b[0] == 0xF0 ==> b[1] >= 0x90) && (b[0] == 0xF4 ==> b[1] <= 0x8F) then 4
    else 0
  }

  predicate ValidUtf8(b: Bytes) {
    b == [] || (Utf8SequenceLength(b) > 0 && ValidUtf8(b[Utf8SequenceLength(b)..]))
  }

  /** A Unicode scalar value: a code point that is no surrogate. */
  predicate IsScalar(c: nat) {
    c < 0xD800 || 0xE000 <= c < 0x11_0000
  }

  function EncodeScalar(c: nat): (r: Bytes)
    requires IsScalar(c)
  {
    if c < 0x80 then [c]
    else if c < 0x800 then [0xC0 + c / 0x40, 0x80 + c % 0x40]
    else if c < 0x1_0000 then [0xE0 + c / 0x1000, 0x80 + c / 0x40 % 0x40, 0x80 + c % 0x40]
    else [0xF0 + c / 0x4_0000, 0x80 + c / 0x1000 % 0x40, 0x80 + c / 0x40 % 0x40, 0x80 + c % 0x40]
  }

  function EncodeScalars(cs: seq<nat>): Bytes
    requires forall i :: 0 <= i < |cs| ==> IsScalar(cs[i])
  {
    if cs == [] then [] else EncodeScalar(cs[0]) + EncodeScalars(cs[1..])
  }

  lemma ScalarIsSequence(c: nat, tail: Bytes)
    requires IsScalar(c)
    ensures Utf8SequenceLength(EncodeScalar(c) + tail) == |EncodeScalar(c)| > 0
  {
    var b := EncodeScalar(c) + tail;
    if c < 0x80 {
      assert b[0] == c;
    } else if c < 0x800 {
      assert 0xC2 <= b[0] <= 0xDF && b[1] == 0x80 + c % 0x40;
    } else if c < 0x1_0000 {
      assert 0xE0 <= b[0] <= 0xEF && b[1] == 0x80 + c / 0x40 % 0x40 && b[2] == 0x80 + c % 0x40;
    } else {
      assert 0xF0 <= b[0] <= 0xF4 && b[1] == 0x80 + c / 0x1000 % 0x40;
      assert b[2] == 0x80 + c / 0x40 % 0x40 && b[3] == 0x80 + c % 0x40;
    }
  }

  /** The scalar value a well-formed sequence encodes. */
  function SequenceScalar(b: Bytes): (c: nat)
    requires |b| > 0 && Utf8SequenceLength(b) > 0
  {
    var n := Utf8SequenceLength(b);
    var x := (i: nat) requires i < |b| => b[i] as int - 0x80;
    if n == 1 then b[0]
    else if n == 2 then (x(0) - 0x40) * 0x40 + x(1)
    else if n == 3 then ((x(0) - 0x60) * 0x40 + x(1)) * 0x40 + x(2)
    else (((x(0) - 0x70) * 0x40 + x(1)) * 0x40 + x(2)) * 0x40 + x(3)
  }

  lemma TwoDigits(p: nat, q: nat)
    requires q < 0x40
    ensures (p * 0x40 + q) / 0x40 == p && (p * 0x40 + q) % 0x40 == q
  {
  }

  lemma ThreeDigits(p: nat, q: nat, r: nat)
    requires q < 0x40 && r < 0x40
    ensures var c := (p * 0x40 + q) * 0x40 + r; c / 0x1000 == p && c / 0x40 % 0x40 == q && c % 0x40 == r
  {
    TwoDigits(p * 0x40 + q, r);
    TwoDigits(p, q);
  }

  lemma FourDigits(p: nat, q: nat, r: nat, s: nat)
    requires q < 0x40 && r < 0x40 && s < 0x40
    ensures var c := ((p * 0x40 + q) * 0x40 + r) * 0x40 + s;
            c / 0x4_0000 == p && c / 0x1000 % 0x40 == q && c / 0x40 % 0x40 == r && c % 0x40 == s
  {
    var c := ((p * 0x40 + q) * 0x40 + r) * 0x40 + s;
    TwoDigits((p * 0x40 + q) * 0x40 + r, s);
    ThreeDigits(p, q, r);
    assert c / 0x1000 == c / 0x40 / 0x40 && c / 0x4_0000 == c / 0x40 / 0x1000;
  }

  lemma TwoBytes(p: nat, q: nat)
    requires 2 <= p < 0x20 && q < 0x40
    ensures IsScalar(p * 0x40 + q) && EncodeScalar(p * 0x40 + q) == [0xC0 + p, 0x80 + q]
  {
    TwoDigits(p, q);
  }

  lemma ThreeBytes(p: nat, q: nat, r: nat)
    requires p < 0x10 && q < 0x40 && r < 0x40 && (p == 0 ==> q >= 0x20) && (p == 0xD ==> q < 0x20)
    ensures var c := (p * 0x40 + q) * 0x40 + r; IsScalar(c) && EncodeScalar(c) == [0xE0 + p, 0x80 + q, 0x80 + r]
  {
    ThreeDigits(p, q, r);
  }

  lemma FourBytes(p: nat, q: nat, r: nat, s: nat)
    requires p < 5 && q < 0x40 && r < 0x40 && s < 0x40 && (p == 0 ==> q >= 0x10) && (p == 4 ==> q < 0x10)
    ensures var c := ((p * 0x40 + q) * 0x40 + r) * 0x40 + s;
            IsScalar(c) && EncodeScalar(c) == [0xF0 + p, 0x80 + q, 0x80 + r, 0x80 + s]
  {
    FourDigits(p, q, r, s);
  }

  lemma SequenceIsScalar(b: Bytes)
    requires |b| > 0 && Utf8SequenceLength(b) > 0
    ensures IsScalar(SequenceScalar(b)) && EncodeScalar(SequenceScalar(b)) == b[..Utf8SequenceLength(b)]
  {
    hide EncodeScalar;
    var n := Utf8SequenceLength(b);
    if n == 1 {
      OneByte(b[0]);
    } else if n == 2 {
      TwoBytes(b[0] as int - 0xC0, b[1] as int - 0x80);
    } else if n == 3 {
      ThreeBytes(b[0] as int - 0xE0, b[1] as int - 0x80, b[2] as int - 0x80);
    } else {
      FourBytes(b[0] as int - 0xF0, b[1] as int - 0x80, b[2] as int - 0x80, b[3] as int - 0x80);
    }
  }

  lemma OneByte(c: nat)
    requires c < 0x80
    ensures IsScalar(c) && EncodeScalar(c) == [c]
  {
  }

  lemma {:induction false} EncodedScalarsAreValid(cs: seq<nat>)
    requires forall i :: 0 <= i < |cs| ==> IsScalar(cs[i])
    ensures ValidUtf8(EncodeScalars(cs))
  {
    if cs == [] {
    } else {
      EncodedScalarsAreValid(cs[1..]);
      ScalarIsSequence(cs[0], EncodeScalars(cs[1..]));
      Unglue(EncodeScalar(cs[0]), EncodeScalars(cs[1..]));
    }
  }

  lemma {:induction false} ValidUtf8IsText(b: Bytes) returns (cs: seq<nat>)
    requires ValidUtf8(b)
    ensures (forall i :: 0 <= i < |cs| ==> IsScalar(cs[i])) && EncodeScalars(cs) == b
  {
    hide Utf8SequenceLength, EncodeScalar, IsScalar, SequenceScalar;
    if b == [] {
      cs := [];
    } else {
      var n := Utf8SequenceLength(b);
      var rest := ValidUtf8IsText(b[n..]);
      SequenceIsScalar(b);
      cs := [SequenceScalar(b)] + rest;
      assert cs[1..] == rest && b == b[..n] + b[n..];
    }
  }

  predicate AreScalars(cs: seq<nat>) {
    forall i :: 0 <= i < |cs| ==> IsScalar(cs[i])
  }

  /** The byte strings accepted as text are exactly the encodings of scalar values. */
  lemma ValidIffEncoded(b: Bytes)
    ensures ValidUtf8(b) <==> exists cs :: AreScalars(cs) && EncodeScalars(cs) == b
  {
    if ValidUtf8(b) {
      var cs := ValidUtf8IsText(b);
      assert AreScalars(cs);
    }
    if cs :| AreScalars(cs) && EncodeScalars(cs) == b {
      EncodedScalarsAreValid(cs);
    }
  }
}
