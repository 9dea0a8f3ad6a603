/**
 UTF-16BE (section 2 of RFC 2781), the byte form of a shifted run in a mailbox name.
 A Dafny `char` is a Unicode scalar value, so unpaired surrogates cannot be encoded,
 exactly as the source's `str.encode("utf-16-be")` refuses them.
 */
module Utf16 {
  import opened Outcome

  type Byte = b: nat | b < 256

  datatype CodecError = Truncated | UnpairedSurrogate

  const SURROGATE_BASE := 0x1_0000
  const HIGH_SURROGATE := 0xD800
  const LOW_SURROGATE := 0xDC00
  const AFTER_SURROGATES := 0xE000

  function UnitBytes(unit: nat): (bytes: seq<Byte>)
    requires unit < 0x1_0000
  {
    [unit / 256, unit % 256]
  }

  function EncodeChar(c: char): seq<Byte> {
    var n := c as int;
    if n < SURROGATE_BASE then UnitBytes(n)
    else
      var v := n - SURROGATE_BASE;
      UnitBytes(HIGH_SURROGATE + v / 0x400) + UnitBytes(LOW_SURROGATE + v % 0x400)
  }

  function Encode(text: string): seq<Byte> {
    if text == "" then [] else EncodeChar(text[0]) + Encode(text[1..])
  }

  function UnitAt(bytes: seq<Byte>, i: nat): (unit: nat)
    requires i + 1 < |bytes|
    ensures unit < 0x1_0000
  {
    bytes[i] as int * 256 + bytes[i + 1] as int
  }

  function Decode(bytes: seq<Byte>): Result<string, CodecError> {
    if |bytes| == 0 then Ok("")
    else if |bytes| == 1 then Err(Truncated)
    else
      var unit := UnitAt(bytes, 0);
      if HIGH_SURROGATE <= unit < LOW_SURROGATE then
        if |bytes| < 4 then Err(Truncated)
        else
          var low := UnitAt(bytes, 2);
          if LOW_SURROGATE <= low < AFTER_SURROGATES then
            var rest :- Decode(bytes[4..]);
            Ok([SurrogatePair(unit, low)] + rest)
          else Err(UnpairedSurrogate)
      else if LOW_SURROGATE <= unit < AFTER_SURROGATES then Err(UnpairedSurrogate)
      else
        var rest :- Decode(bytes[2..]);
        Ok([unit as char] + rest)
  }

  function SurrogatePair(high: nat, low: nat): char
    requires HIGH_SURROGATE <= high < LOW_SURROGATE <= low < AFTER_SURROGATES
  {
    (SURROGATE_BASE + (high - HIGH_SURROGATE) * 0x400 + (low - LOW_SURROGATE)) as char
  }

  lemma UnitRoundTrip(unit: nat, rest: seq<Byte>)
    requires unit < 0x1_0000
    ensures UnitAt(UnitBytes(unit) + rest, 0) == unit
    ensures (UnitBytes(unit) + rest)[2..] == rest
  {
  }

  /** A decoder that meets an encoded character reads exactly that character. */
  lemma DecodeReadsChar(c: char, rest: seq<Byte>)
    ensures Decode(EncodeChar(c) + rest) ==
            match Decode(rest)
            case Ok(text) => Ok([c] + text)
            case Err(e) => Err(e)
  {
    var n := c as int;
    if n < SURROGATE_BASE {
      UnitRoundTrip(n, rest);
    } else {
      var v := n - SURROGATE_BASE;
      var high, low := HIGH_SURROGATE + v / 0x400, LOW_SURROGATE + v % 0x400;
      var tail := UnitBytes(low) + rest;
      var bytes := UnitBytes(high) + tail;
      assert EncodeChar(c) + rest == bytes;
      UnitRoundTrip(high, tail);
      UnitRoundTrip(low, rest);
      assert UnitAt(bytes, 2) == UnitAt(tail, 0) == low;
      assert bytes[4..] == tail[2..] == rest;
      assert SurrogatePair(high, low) == c;
    }
  }

  lemma {:induction false} RoundTrip(text: string)
    ensures Decode(Encode(text)) == Ok(text)
  {
    if text != "" {
      DecodeReadsChar(text[0], Encode(text[1..]));
      RoundTrip(text[1..]);
      assert [text[0]] + text[1..] == text;
    }
  }
}
