/** What the validity test of strings means: they are encodings of Unicode scalar values (section 3 of RFC 3629). */
module Utf8 {
  import opened Prelude
  import opened Abi

  predicate Scalar(r: nat) { r < 0x11_0000 && !(0xD800 <= r < 0xE000) }

  function EncodeRune(r: nat): (b: Bytes)
    requires Scalar(r)
    ensures 1 <= |b| <= 4
  {
    if r < 0x80 then [r as byte]
    else if r < 0x800 then [(0xC0 + r / 64) as byte, (0x80 + r % 64) as byte]
    else if r < 0x1_0000 then [(0xE0 + r / 64 / 64) as byte, (0x80 + r / 64 % 64) as byte, (0x80 + r % 64) as byte]
    else [(0xF0 + r / 64 / 64 / 64) as byte, (0x80 + r / 64 / 64 % 64) as byte, (0x80 + r / 64 % 64) as byte, (0x80 + r % 64) as byte]
  }

  ghost predicate AllScalar(runes: seq<nat>) {
    forall i :: 0 <= i < |runes| ==> Scalar(runes[i])
  }

  ghost function EncodeRunes(runes: seq<nat>): Bytes
    requires AllScalar(runes)
  {
    if runes == [] then [] else EncodeRune(runes[0]) + EncodeRunes(runes[1..])
  }

  /** The rune a valid sequence stands for. */
  function DecodeRune(b: Bytes): int
    requires RuneLength(b) > 0
  {
    if RuneLength(b) == 1 then b[0] as int
    else if RuneLength(b) == 2 then (b[0] as int - 0xC0) * 64 + (b[1] as int - 0x80)
    else if RuneLength(b) == 3 then ((b[0] as int - 0xE0) * 64 + (b[1] as int - 0x80)) * 64 + (b[2] as int - 0x80)
    else (((b[0] as int - 0xF0) * 64 + (b[1] as int - 0x80)) * 64 + (b[2] as int - 0x80)) * 64 + (b[3] as int - 0x80)
  }

  lemma Digits(high: int, low: int)
    requires 0 <= low < 64
    ensures (high * 64 + low) / 64 == high && (high * 64 + low) % 64 == low
  {
  }

  lemma LengthBound(b: Bytes)
    ensures RuneLength(b) <= |b| && RuneLength(b) <= 4
  {
  }

  lemma DecodesScalar(b: Bytes)
    requires RuneLength(b) > 0
    ensures 0 <= DecodeRune(b) && Scalar(DecodeRune(b))
  {
  }

  /** A valid sequence is the encoding of its rune. */
  lemma DecodeEncodes(b: Bytes)
    requires RuneLength(b) > 0
    ensures 0 <= DecodeRune(b) && Scalar(DecodeRune(b)) && RuneLength(b) <= |b| && EncodeRune(DecodeRune(b)) == b[..RuneLength(b)]
  {
    DecodesScalar(b);
    LengthBound(b);
    if RuneLength(b) == 2 {
      Digits(b[0] as int - 0xC0, b[1] as int - 0x80);
    } else if RuneLength(b) == 3 {
      Digits((b[0] as int - 0xE0) * 64 + (b[1] as int - 0x80), b[2] as int - 0x80);
      Digits(b[0] as int - 0xE0, b[1] as int - 0x80);
    } else if RuneLength(b) == 4 {
      Digits(((b[0] as int - 0xF0) * 64 + (b[1] as int - 0x80)) * 64 + (b[2] as int - 0x80), b[3] as int - 0x80);
      Digits((b[0] as int - 0xF0) * 64 + (b[1] as int - 0x80), b[2] as int - 0x80);
      Digits(b[0] as int - 0xF0, b[1] as int - 0x80);
    }
  }

  /** The encoding of a rune is one valid sequence, whatever follows. */
  lemma EncodesValid(r: nat, rest: Bytes)
    requires Scalar(r)
    ensures RuneLength(EncodeRune(r) + rest) == |EncodeRune(r)|
  {
    var e := EncodeRune(r);
    var b := e + rest;
    assert forall i :: 0 <= i < |e| ==> b[i] == e[i];
  }

  /** A string is valid exactly when it encodes some sequence of Unicode scalar values. */
  lemma ValidExactly(b: Bytes)
    ensures ValidUtf8(b) <==> exists runes :: AllScalar(runes) && b == EncodeRunes(runes)
  {
    if ValidUtf8(b) { var runes := Runes(b); }
    forall runes | AllScalar(runes) && b == EncodeRunes(runes) ensures ValidUtf8(b) { EncodedValid(runes); }
  }

  lemma {:induction false} Runes(b: Bytes) returns (runes: seq<nat>)
    requires ValidUtf8(b)
    ensures AllScalar(runes) && b == EncodeRunes(runes)
    decreases |b|
  {
    hide RuneLength, EncodeRune, DecodeRune, Scalar;
    if b == [] {
      runes := [];
    } else {
      var n := RuneLength(b);
      DecodeEncodes(b);
      var rest := Runes(b[n..]);
      runes := [DecodeRune(b)] + rest;
      assert runes[1..] == rest && b == b[..n] + b[n..];
    }
  }

  lemma {:induction false} EncodedValid(runes: seq<nat>)
    requires AllScalar(runes)
    ensures ValidUtf8(EncodeRunes(runes))
  {
    hide RuneLength, EncodeRune, Scalar;
    if runes != [] {
      var e, rest := EncodeRune(runes[0]), EncodeRunes(runes[1..]);
      EncodesValid(runes[0], rest);
      EncodedValid(runes[1..]);
      assert (e + rest)[|e|..] == rest;
    }
  }
}
