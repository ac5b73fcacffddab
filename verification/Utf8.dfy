/** UTF-8 (section 3 of RFC 3629) and the incremental decoder that keeps an unfinished sequence
    between pieces. */
module Utf8 {
  import opened Results

  type Byte = b: int | 0 <= b < 0x100

  /** A Unicode scalar value: any code point except the surrogates. */
  type Scalar = c: int | 0 <= c < 0xD800 || 0xE000 <= c < 0x110000

  function EncodeScalar(c: Scalar): (bytes: seq<Byte>)
    ensures 1 <= |bytes| == SequenceLength(bytes[0])
  {
    if c < 0x80 then [c]
    else if c < 0x800 then [0xC0 + c / 0x40, 0x80 + c % 0x40]
    else if c < 0x10000 then [0xE0 + c / 0x1000, 0x80 + c / 0x40 % 0x40, 0x80 + c % 0x40]
    else [0xF0 + c / 0x40000, 0x80 + c / 0x1000 % 0x40, 0x80 + c / 0x40 % 0x40, 0x80 + c % 0x40]
  }

  function Encode(text: seq<Scalar>): seq<Byte> {
    if text == [] then [] else EncodeScalar(text[0]) + Encode(text[1..])
  }

  /** Number of bytes announced by a leading byte; 0 when no sequence may start with it. */
  function SequenceLength(lead: Byte): nat {
    if lead < 0x80 then 1
    else if 0xC2 <= lead < 0xE0 then 2
    else if 0xE0 <= lead < 0xF0 then 3
    else if 0xF0 <= lead < 0xF5 then 4
    else 0
  }

  predicate Continuation(b: Byte) {
    0x80 <= b < 0xC0
  }

  /** The number whose low six bits are those of the continuation byte `b`, under the bits of `high`. */
  function Shift(high: int, b: int): int {
    high * 0x40 + (b - 0x80)
  }

  /** Decodes one whole sequence, rejecting overlong forms, surrogates and values past U+10FFFF. */
  function DecodeScalar(bytes: seq<Byte>): Option<Scalar>
    requires bytes != [] && |bytes| == SequenceLength(bytes[0])
  {
    var lead: int := bytes[0];
    if exists i :: 1 <= i < |bytes| && !Continuation(bytes[i]) then None
    else if |bytes| == 1 then Some(bytes[0])
    else if |bytes| == 2 then Some(Shift(lead - 0xC0, bytes[1]))
    else if |bytes| == 3 then
      var c := Shift(Shift(lead - 0xE0, bytes[1]), bytes[2]);
      if c < 0x800 || 0xD800 <= c < 0xE000 then None else Some(c)
    else
      var c := Shift(Shift(Shift(lead - 0xF0, bytes[1]), bytes[2]), bytes[3]);
      if c < 0x10000 || 0x110000 <= c then None else Some(c)
  }

  /** What the decoder knows after some bytes: the characters so far and the bytes it still holds. */
  datatype Decoding = Invalid | Decoded(text: seq<Scalar>, pending: seq<Byte>)

  function Decode(data: seq<Byte>): Decoding {
    if data == [] then Decoded([], [])
    else
      var n := SequenceLength(data[0]);
      if n == 0 then Invalid
      else if |data| < n then Decoded([], data)
      else
        match DecodeScalar(data[..n])
        case None => Invalid
        case Some(c) => Then([c], Decode(data[n..]))
  }

  function Then(text: seq<Scalar>, d: Decoding): Decoding {
    if d.Decoded? then Decoded(text + d.text, d.pending) else Invalid
  }

  /** The incremental step: the held bytes are decoded again together with the next piece. */
  function Resume(d: Decoding, piece: seq<Byte>): Decoding {
    if d.Decoded? then Then(d.text, Decode(d.pending + piece)) else Invalid
  }

  predicate Complete(data: seq<Byte>) {
    Decode(data).Decoded? && Decode(data).pending == []
  }

  lemma ShiftDigits(high: int, b: int)
    requires 0x80 <= b < 0xC0
    ensures Shift(high, b) / 0x40 == high && 0x80 + Shift(high, b) % 0x40 == b
  {
  }

  lemma DigitsShift(c: int)
    ensures Shift(c / 0x40, 0x80 + c % 0x40) == c
  {
  }

  lemma ScalarRoundTrip(c: Scalar)
    ensures DecodeScalar(EncodeScalar(c)) == Some(c)
  {
    var bytes := EncodeScalar(c);
    assert forall i | 1 <= i < |bytes| :: Continuation(bytes[i]);
    var n: int := c;
    DigitsShift(n);
    if n >= 0x800 {
      DigitsShift(n / 0x40);
      assert n / 0x40 / 0x40 == n / 0x1000;
    }
    if n >= 0x10000 {
      DigitsShift(n / 0x1000);
      assert n / 0x1000 / 0x40 == n / 0x40000;
    }
  }

  lemma DecodedScalarEncodes(bytes: seq<Byte>)
    requires bytes != [] && |bytes| == SequenceLength(bytes[0])
    requires DecodeScalar(bytes).Some?
    ensures EncodeScalar(DecodeScalar(bytes).value) == bytes
  {
    assert forall i | 1 <= i < |bytes| :: Continuation(bytes[i]);
    var c: int, lead: int := DecodeScalar(bytes).value, bytes[0];
    if |bytes| == 2 {
      ShiftDigits(lead - 0xC0, bytes[1]);
    } else if |bytes| == 3 {
      var high := Shift(lead - 0xE0, bytes[1]);
      ShiftDigits(lead - 0xE0, bytes[1]);
      ShiftDigits(high, bytes[2]);
      assert c / 0x40 / 0x40 == c / 0x1000;
    } else if |bytes| == 4 {
      var high := Shift(lead - 0xF0, bytes[1]);
      ShiftDigits(lead - 0xF0, bytes[1]);
      ShiftDigits(high, bytes[2]);
      ShiftDigits(Shift(high, bytes[2]), bytes[3]);
      assert c / 0x40 / 0x40 == c / 0x1000;
      assert c / 0x1000 / 0x40 == c / 0x40000;
    }
  }

  lemma {:induction false} EncodeConcat(a: seq<Scalar>, b: seq<Scalar>)
    ensures Encode(a + b) == Encode(a) + Encode(b)
  {
    if a == [] {
      assert a + b == b;
    } else {
      assert (a + b)[1..] == a[1..] + b;
      EncodeConcat(a[1..], b);
    }
  }

  /** Feeding the bytes piece by piece gives what decoding them at once gives. */
  lemma {:induction false} DecodeConcat(a: seq<Byte>, b: seq<Byte>)
    ensures Decode(a + b) == Resume(Decode(a), b)
    decreases |a|
  {
    if a == [] {
      assert a + b == b;
    } else {
      var n := SequenceLength(a[0]);
      if 0 < n <= |a| {
        assert (a + b)[..n] == a[..n] && (a + b)[n..] == a[n..] + b;
        DecodeConcat(a[n..], b);
        var rest := Decode(a[n..]);
        if rest.Decoded? && DecodeScalar(a[..n]).Some? {
          var c := DecodeScalar(a[..n]).value;
          var tail := Decode(rest.pending + b);
          if tail.Decoded? {
            assert [c] + (rest.text + tail.text) == ([c] + rest.text) + tail.text;
          }
        }
      }
    }
  }

  lemma {:induction false} DecodeEncode(text: seq<Scalar>)
    ensures Decode(Encode(text)) == Decoded(text, [])
  {
    if text != [] {
      var first, rest := EncodeScalar(text[0]), Encode(text[1..]);
      assert (first + rest)[..|first|] == first && (first + rest)[|first|..] == rest;
      ScalarRoundTrip(text[0]);
      DecodeEncode(text[1..]);
      assert [text[0]] + text[1..] == text;
    }
  }

  lemma EncodeCons(c: Scalar, rest: seq<Scalar>)
    ensures Encode([c] + rest) == EncodeScalar(c) + Encode(rest)
  {
    assert ([c] + rest)[1..] == rest;
  }

  lemma DecodeUnfold(data: seq<Byte>)
    requires data != [] && Decode(data).Decoded? && SequenceLength(data[0]) <= |data|
    ensures 0 < SequenceLength(data[0])
    ensures Decode(data[SequenceLength(data[0])..]).Decoded?
    ensures DecodeScalar(data[..SequenceLength(data[0])]).Some?
    ensures EncodeScalar(DecodeScalar(data[..SequenceLength(data[0])]).value) == data[..SequenceLength(data[0])]
    ensures Decode(data) == Then([DecodeScalar(data[..SequenceLength(data[0])]).value],
      Decode(data[SequenceLength(data[0])..]))
  {
    DecodedScalarEncodes(data[..SequenceLength(data[0])]);
  }

  /** The decoder loses nothing: what it emitted, encoded, followed by what it holds, is its input. */
  lemma {:induction false} EncodeDecode(data: seq<Byte>)
    requires Decode(data).Decoded?
    ensures data == Encode(Decode(data).text) + Decode(data).pending
    decreases |data|
  {
    if data != [] && SequenceLength(data[0]) <= |data| {
      var n := SequenceLength(data[0]);
      DecodeUnfold(data);
      var c, rest := DecodeScalar(data[..n]).value, Decode(data[n..]);
      EncodeDecode(data[n..]);
      EncodeCons(c, rest.text);
      Regroup(data[..n], Encode(rest.text), rest.pending);
      assert data == data[..n] + data[n..];
    }
  }

  lemma Regroup(a: seq<Byte>, b: seq<Byte>, c: seq<Byte>)
    ensures a + (b + c) == (a + b) + c
  {
  }

  /** Decoding accepts exactly the encodings of texts. */
  lemma CompleteIffEncoding(data: seq<Byte>)
    ensures Complete(data) <==> exists text: seq<Scalar> :: Encode(text) == data
  {
    if Complete(data) {
      EncodeDecode(data);
      assert Encode(Decode(data).text) == data;
    }
    forall text: seq<Scalar> | Encode(text) == data ensures Complete(data) {
      DecodeEncode(text);
    }
  }
}
