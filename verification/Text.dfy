/** UTF-8, as `std::str::from_utf8` decides it (section 4 of RFC 3629). */
module Text {
  import opened Primitives

  predicate Continuation(b: byte) {
    0x80 <= b <= 0xBF
  }

  /** The table of well-formed byte sequences. */
  predicate Utf8(bytes: seq<byte>) {
    bytes == [] ||
    var b := bytes[0];
    if b <= 0x7F then Utf8(bytes[1..])
    else if 0xC2 <= b <= 0xDF then |bytes| >= 2 && Continuation(bytes[1]) && Utf8(bytes[2..])
    else if 0xE0 <= b <= 0xEF then
      && |bytes| >= 3 && Continuation(bytes[1]) && Continuation(bytes[2])
      && (b == 0xE0 ==> bytes[1] >= 0xA0) && (b == 0xED ==> bytes[1] <= 0x9F) && Utf8(bytes[3..])
    else
      && 0xF0 <= b <= 0xF4 && |bytes| >= 4
      && Continuation(bytes[1]) && Continuation(bytes[2]) && Continuation(bytes[3])
      && (b == 0xF0 ==> bytes[1] >= 0x90) && (b == 0xF4 ==> bytes[1] <= 0x8F) && Utf8(bytes[4..])
  }

  // ------------------------------------------------------------- as an encoding

  /** A Unicode scalar value. */
  predicate Scalar(c: nat) {
    c <= 0x10FFFF && !(0xD800 <= c <= 0xDFFF)
  }

  predicate AllScalars(text: seq<nat>) {
    forall i :: 0 <= i < |text| ==> Scalar(text[i])
  }

  /** The shortest encoding: six bits in each byte but the first. */
  function EncodeScalar(c: nat): (bytes: seq<byte>)
    requires Scalar(c)
    ensures 1 <= |bytes| <= 4
  {
    if c < 0x80 then [c]
    else if c < 0x800 then [0xC0 + c / 64, 0x80 + c % 64]
    else if c < 0x1_0000 then [0xE0 + c / 64 / 64, 0x80 + c / 64 % 64, 0x80 + c % 64]
    else [0xF0 + c / 64 / 64 / 64, 0x80 + c / 64 / 64 % 64, 0x80 + c / 64 % 64, 0x80 + c % 64]
  }

  function EncodeText(text: seq<nat>): seq<byte>
    requires AllScalars(text)
  {
    if text == [] then [] else EncodeScalar(text[0]) + EncodeText(text[1..])
  }

  /** Six more bits. */
  function Append(high: nat, b: byte): (v: nat)
    requires Continuation(b)
    ensures v / 64 == high && v % 64 == b - 0x80
  {
    high * 64 + (b - 0x80)
  }

  /** The scalar value that starts a well-formed byte sequence. */
  function FirstScalar(bytes: seq<byte>): (c: nat)
    requires bytes != [] && Utf8(bytes)
    ensures Scalar(c)
  {
    var b := bytes[0];
    if b <= 0x7F then b
    else if b <= 0xDF then Append(b - 0xC0, bytes[1])
    else if b <= 0xEF then Append(Append(b - 0xE0, bytes[1]), bytes[2])
    else Append(Append(Append(b - 0xF0, bytes[1]), bytes[2]), bytes[3])
  }

  lemma FirstEncoded(bytes: seq<byte>)
    requires bytes != [] && Utf8(bytes)
    ensures var first := EncodeScalar(FirstScalar(bytes)); first <= bytes && Utf8(bytes[|first|..])
  {
  }

  /** Putting a scalar value in front keeps well-formedness, both ways. */
  lemma EncodedFirst(c: nat, rest: seq<byte>)
    requires Scalar(c)
    ensures Utf8(EncodeScalar(c) + rest) <==> Utf8(rest)
  {
    var bytes := EncodeScalar(c) + rest;
    assert bytes[|EncodeScalar(c)|..] == rest;
  }

  lemma {:induction false} EncodedIsUtf8(text: seq<nat>)
    requires AllScalars(text)
    ensures Utf8(EncodeText(text))
  {
    if text != [] {
      EncodedIsUtf8(text[1..]);
      EncodedFirst(text[0], EncodeText(text[1..]));
    }
  }

  lemma {:induction false} Utf8IsEncoded(bytes: seq<byte>) returns (text: seq<nat>)
    requires Utf8(bytes)
    ensures AllScalars(text) && EncodeText(text) == bytes
    decreases |bytes|
  {
    if bytes == [] {
      text := [];
    } else {
      FirstEncoded(bytes);
      var c := FirstScalar(bytes);
      var rest := Utf8IsEncoded(bytes[|EncodeScalar(c)|..]);
      text := [c] + rest;
      assert text[1..] == rest;
      assert bytes == EncodeScalar(c) + bytes[|EncodeScalar(c)|..];
    }
  }

  /** A byte string is well-formed exactly when it encodes some text. */
  lemma Utf8Exactly(bytes: seq<byte>)
    ensures Utf8(bytes) <==> exists text :: AllScalars(text) && EncodeText(text) == bytes
  {
    if Utf8(bytes) {
      var text := Utf8IsEncoded(bytes);
    }
    forall text | AllScalars(text) && EncodeText(text) == bytes ensures Utf8(bytes) {
      EncodedIsUtf8(text);
    }
  }
}
