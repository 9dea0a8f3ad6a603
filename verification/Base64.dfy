/**
 Base64 (section 4 of RFC 4648) as the mailbox-name codec uses it: a padded encoder and the
 lenient decoder, which skips characters outside the alphabet and stops at a completed padding.
 */
module Base64 {
  import opened Outcome
  import opened Utf16

  type Sextet = s: nat | s < 64

  datatype PaddingError = DataLength | IncorrectPadding

  /** Where the decoder stands inside a group of four: how many digits it has read, the bits of
      the last one not yet emitted, and how many padding characters followed it. */
  datatype Cursor = Cursor(quad: nat, carry: nat, pads: nat) {
    predicate Valid() {
      quad < 4 && carry < 64 && (quad == 2 ==> carry < 16) && (quad == 3 ==> carry < 4)
    }
  }

  const START := Cursor(0, 0, 0)

  function Digit(s: Sextet): (c: char)
    ensures IsDigit(c) && Value(c) == s
  {
    if s < 26 then ('A' as int + s) as char
    else if s < 52 then ('a' as int + (s - 26)) as char
    else if s < 62 then ('0' as int + (s - 52)) as char
    else if s == 62 then '+' else '/'
  }

  predicate IsDigit(c: char) {
    'A' <= c <= 'Z' || 'a' <= c <= 'z' || '0' <= c <= '9' || c == '+' || c == '/'
  }

  function Value(c: char): Sextet
    requires IsDigit(c)
  {
    if 'A' <= c <= 'Z' then c as int - 'A' as int
    else if 'a' <= c <= 'z' then c as int - 'a' as int + 26
    else if '0' <= c <= '9' then c as int - '0' as int + 52
    else if c == '+' then 62 else 63
  }

  function Digits(bytes: seq<Byte>): (digits: string)
    ensures forall c <- digits :: IsDigit(c)
  {
    if |bytes| == 0 then ""
    else if |bytes| == 1 then [Digit(bytes[0] / 4), Digit((bytes[0] % 4) * 16)]
    else if |bytes| == 2 then
      [Digit(bytes[0] / 4), Digit((bytes[0] % 4) * 16 + bytes[1] / 16), Digit((bytes[1] % 16) * 4)]
    else
      [Digit(bytes[0] / 4), Digit((bytes[0] % 4) * 16 + bytes[1] / 16),
       Digit((bytes[1] % 16) * 4 + bytes[2] / 64), Digit(bytes[2] % 64)] + Digits(bytes[3..])
  }

  function Pad(n: nat): string {
    seq(n, _ => '=')
  }

  function PadLength(bytes: seq<Byte>): nat {
    -|bytes| % 3
  }

  /** How much padding text of `n` digits is short of. */
  function Missing(n: int): nat {
    -n % 4
  }

  function Encode(bytes: seq<Byte>): string {
    Digits(bytes) + Pad(PadLength(bytes))
  }

  /** One digit read in the middle of a group: the byte it completes, if any, and the new cursor. */
  function Feed(at: Cursor, v: Sextet): (step: (seq<Byte>, Cursor))
    requires at.Valid()
    ensures step.1.Valid()
  {
    if at.quad == 0 then ([], Cursor(1, v, 0))
    else if at.quad == 1 then ([(at.carry * 4 + v / 16) % 256], Cursor(2, v % 16, 0))
    else if at.quad == 2 then ([at.carry * 16 + v / 4], Cursor(3, v % 4, 0))
    else ([at.carry * 64 + v], START)
  }

  function DecodeFrom(text: string, at: Cursor): Result<seq<Byte>, PaddingError>
    requires at.Valid()
    decreases |text|
  {
    if text == "" then
      if at.quad == 0 then Ok([])
      else if at.quad == 1 then Err(DataLength)
      else Err(IncorrectPadding)
    else if text[0] == '=' then
      if at.quad >= 2 && at.quad + at.pads + 1 >= 4 then Ok([])
      else DecodeFrom(text[1..], if at.quad >= 2 then at.(pads := at.pads + 1) else at)
    else if !IsDigit(text[0]) then DecodeFrom(text[1..], at)
    else
      var (bytes, next) := Feed(at, Value(text[0]));
      var rest :- DecodeFrom(text[1..], next);
      Ok(bytes + rest)
  }

  function Decode(text: string): Result<seq<Byte>, PaddingError> {
    DecodeFrom(text, START)
  }

  /** The decoder's padding rule, applied to the digits alone, restores what the encoder put. */
  lemma {:induction false} PaddingRestored(bytes: seq<Byte>)
    ensures Missing(|Digits(bytes)|) == PadLength(bytes)
    ensures |Digits(bytes)| == 0 <==> |bytes| == 0
  {
    if |bytes| >= 3 {
      PaddingRestored(bytes[3..]);
      var n, d := |bytes[3..]|, |Digits(bytes[3..])|;
      assert |Digits(bytes)| == d + 4 && |bytes| == n + 3;
      ShiftByPeriod(n, 3);
      ShiftByPeriod(d, 4);
    }
  }

  lemma ShiftByPeriod(n: int, period: int)
    requires period == 3 || period == 4
    ensures -(n + period) % period == -n % period
  {
  }

  lemma DecodeReadsDigit(v: Sextet, rest: string, at: Cursor)
    requires at.Valid()
    ensures DecodeFrom([Digit(v)] + rest, at) ==
            match DecodeFrom(rest, Feed(at, v).1)
            case Ok(more) => Ok(Feed(at, v).0 + more)
            case Err(e) => Err(e)
  {
    assert ([Digit(v)] + rest)[1..] == rest;
  }

  /** Two digits carry the first byte of a group; the remaining bits stay in the cursor. */
  lemma DecodeReadsFirstByte(b: Byte, low: nat, rest: string)
    requires low < 16
    ensures DecodeFrom([Digit(b / 4), Digit((b % 4) * 16 + low)] + rest, START) ==
            match DecodeFrom(rest, Cursor(2, low, 0))
            case Ok(more) => Ok([b] + more)
            case Err(e) => Err(e)
  {
    var second := (b % 4) * 16 + low;
    DecodeReadsDigit(b / 4, [Digit(second)] + rest, START);
    DecodeReadsDigit(second, rest, Cursor(1, b / 4, 0));
    assert [Digit(b / 4)] + ([Digit(second)] + rest) == [Digit(b / 4), Digit(second)] + rest;
    assert second / 16 == b % 4 && second % 16 == low;
    assert (b / 4 * 4 + second / 16) % 256 == b;
    match DecodeFrom(rest, Cursor(2, low, 0))
    case Ok(more) => assert [] + ([b] + more) == [b] + more;
    case Err(_) =>
  }

  /** Padded text, read back by the lenient decoder, is the bytes it was made from. */
  lemma {:induction false} RoundTrip(bytes: seq<Byte>)
    ensures Decode(Encode(bytes)) == Ok(bytes)
  {
    if |bytes| == 0 {
    } else if |bytes| == 1 {
      RoundTripOne(bytes[0]);
      assert bytes == [bytes[0]];
    } else if |bytes| == 2 {
      RoundTripTwo(bytes[0], bytes[1]);
      assert bytes == [bytes[0], bytes[1]];
    } else {
      RoundTrip(bytes[3..]);
      DecodeReadsGroup(bytes[0], bytes[1], bytes[2], Encode(bytes[3..]));
      ShiftByPeriod(|bytes[3..]|, 3);
      assert Encode(bytes) == Group(bytes[0], bytes[1], bytes[2]) + Encode(bytes[3..]);
      assert [bytes[0], bytes[1], bytes[2]] + bytes[3..] == bytes;
    }
  }

  lemma RoundTripOne(b: Byte)
    ensures Decode(Encode([b])) == Ok([b])
  {
    DecodeReadsFirstByte(b, 0, "==");
    assert "=="[1..] == "=";
    assert DecodeFrom("=", Cursor(2, 0, 1)) == Ok([]);
    assert Pad(2) == "==";
    assert [b] + [] == [b];
  }

  lemma RoundTripTwo(b: Byte, c: Byte)
    ensures Decode(Encode([b, c])) == Ok([b, c])
  {
    var v := (c % 16) * 4;
    var tail := [Digit(v)] + "=";
    LastDigitOfTwo(c);
    DecodeReadsFirstByte(b, c / 16, tail);
    assert Pad(1) == "=";
    assert Encode([b, c]) == [Digit(b / 4), Digit((b % 4) * 16 + c / 16)] + tail;
    assert [b] + [c] == [b, c];
  }

  lemma LastDigitOfTwo(c: Byte)
    ensures DecodeFrom([Digit((c % 16) * 4)] + "=", Cursor(2, c / 16, 0)) == Ok([c])
  {
    var v := (c % 16) * 4;
    DecodeReadsDigit(v, "=", Cursor(2, c / 16, 0));
    assert Feed(Cursor(2, c / 16, 0), v) == ([c], Cursor(3, 0, 0));
    assert DecodeFrom("=", Cursor(3, 0, 0)) == Ok([]);
    assert [c] + [] == [c];
  }

  function Group(b: Byte, c: Byte, d: Byte): string {
    [Digit(b / 4), Digit((b % 4) * 16 + c / 16), Digit((c % 16) * 4 + d / 64), Digit(d % 64)]
  }

  lemma DecodeReadsRest(c: Byte, d: Byte, rest: string)
    ensures DecodeFrom([Digit((c % 16) * 4 + d / 64)] + ([Digit(d % 64)] + rest), Cursor(2, c / 16, 0)) ==
            match Decode(rest)
            case Ok(more) => Ok([c] + ([d] + more))
            case Err(e) => Err(e)
  {
    var third, fourth := (c % 16) * 4 + d / 64, d % 64;
    DecodeReadsDigit(third, [Digit(fourth)] + rest, Cursor(2, c / 16, 0));
    DecodeReadsDigit(fourth, rest, Cursor(3, d / 64, 0));
    assert third / 4 == c % 16 && third % 4 == d / 64;
  }

  lemma Regroup(a: char, b: char, c: char, d: char, rest: string)
    ensures [a, b, c, d] + rest == [a, b] + ([c] + ([d] + rest))
  {
  }

  lemma DecodeReadsGroup(b: Byte, c: Byte, d: Byte, rest: string)
    ensures Decode(Group(b, c, d) + rest) ==
            match Decode(rest)
            case Ok(more) => Ok([b, c, d] + more)
            case Err(e) => Err(e)
  {
    var tail := [Digit((c % 16) * 4 + d / 64)] + ([Digit(d % 64)] + rest);
    DecodeReadsFirstByte(b, c / 16, tail);
    DecodeReadsRest(c, d, rest);
    Regroup(Digit(b / 4), Digit((b % 4) * 16 + c / 16), Digit((c % 16) * 4 + d / 64), Digit(d % 64), rest);
    match Decode(rest)
    case Ok(more) => assert [b] + ([c] + ([d] + more)) == [b, c, d] + more;
    case Err(_) =>
  }
}
