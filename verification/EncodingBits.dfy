/**
 What a shifted run looks like bit by bit: the sixteen-bit units of section 2.1 of RFC 2781 in big-endian order,
 cut into sixes and spelled with the alphabet of section 4 of RFC 4648, a comma standing for the slash.
 imap/utils.py lines 39-41.
 */
module EncodingBits {
  import opened Text
  import Utf16
  import Base64
  import ModifiedUtf7

  // ---------- bits ----------

  /** The lowest `width` bits of a number, the most significant first. */
  function Bits(n: nat, width: nat): (bits: seq<bool>)
    ensures |bits| == width
  {
    if width == 0 then [] else Bits(n / 2, width - 1) + [n % 2 == 1]
  }

  function Power(k: nat): (p: nat)
    ensures p > 0
  {
    if k == 0 then 1 else 2 * Power(k - 1)
  }

  lemma {:induction false} BitsJoin(x: nat, y: nat, w: nat, k: nat)
    requires y < Power(k)
    ensures Bits(x * Power(k) + y, w + k) == Bits(x, w) + Bits(y, k)
  {
    if k == 0 {
      assert x * Power(0) + y == x;
    } else {
      var n := x * Power(k) + y;
      assert x * Power(k) == 2 * (x * Power(k - 1));
      assert n / 2 == x * Power(k - 1) + y / 2 && n % 2 == y % 2;
      BitsJoin(x, y / 2, w, k - 1);
      assert Bits(n, w + k) == Bits(x, w) + Bits(y / 2, k - 1) + [y % 2 == 1];
    }
  }

  lemma Powers()
    ensures Power(1) == 2 && Power(2) == 4 && Power(4) == 16 && Power(6) == 64 && Power(8) == 256 && Power(10) == 1024
  {
    assert Power(3) == 8;
    assert Power(5) == 32;
    assert Power(7) == 128;
    assert Power(9) == 512;
  }

  function ByteBits(bytes: seq<Utf16.Byte>): seq<bool> {
    if bytes == [] then [] else Bits(bytes[0], 8) + ByteBits(bytes[1..])
  }

  function Zeros(n: nat): seq<bool> {
    seq(n, _ => false)
  }

  lemma {:induction false} ByteBitsJoin(a: seq<Utf16.Byte>, b: seq<Utf16.Byte>)
    ensures ByteBits(a + b) == ByteBits(a) + ByteBits(b)
  {
    if a == [] {
      assert a + b == b;
    } else {
      assert (a + b)[1..] == a[1..] + b;
      ByteBitsJoin(a[1..], b);
    }
  }

  // ---------- the alphabet ----------

  const UPPER := "ABCDEFGHIJKLMNOPQRSTUVWXYZ"
  const LOWER := "abcdefghijklmnopqrstuvwxyz"
  const NUMERALS := "0123456789"

  /** As the mailbox names have it; a comma stands for the slash of section 4 of RFC 4648. */
  const ALPHABET := UPPER + LOWER + NUMERALS + "+,"

  /** The number a character stands for: its place in the alphabet. */
  function Place(alphabet: string, c: char): (p: nat)
    ensures p <= |alphabet| && (p < |alphabet| ==> alphabet[p] == c)
  {
    if alphabet == "" || alphabet[0] == c then 0 else 1 + Place(alphabet[1..], c)
  }

  lemma {:induction false} FirstPlace(alphabet: string, c: char, p: nat)
    requires p < |alphabet| && alphabet[p] == c && forall q :: 0 <= q < p ==> alphabet[q] != c
    ensures Place(alphabet, c) == p
  {
    if p > 0 {
      assert alphabet[0] != c;
      assert forall q :: 0 <= q < p - 1 ==> alphabet[1..][q] == alphabet[q + 1];
      FirstPlace(alphabet[1..], c, p - 1);
    }
  }

  lemma UpperAt(p: nat)
    requires p < 26
    ensures |UPPER| == 26 && UPPER[p] as int == 'A' as int + p
  {
  }

  lemma LowerAt(p: nat)
    requires p < 26
    ensures |LOWER| == 26 && LOWER[p] as int == 'a' as int + p
  {
  }

  lemma NumeralAt(p: nat)
    requires p < 10
    ensures |NUMERALS| == 10 && NUMERALS[p] as int == '0' as int + p
  {
  }

  /** A row of consecutive characters. */
  lemma InRow(row: string, first: char, c: char)
    requires forall p :: 0 <= p < |row| ==> row[p] as int == first as int + p
    ensures c in row <==> first as int <= c as int < first as int + |row|
  {
    if first as int <= c as int < first as int + |row| { assert row[c as int - first as int] == c; }
  }

  lemma RowsAre(c: char)
    ensures (c in UPPER <==> 'A' <= c <= 'Z') && (c in LOWER <==> 'a' <= c <= 'z') && (c in NUMERALS <==> '0' <= c <= '9')
  {
    hide UPPER, LOWER, NUMERALS;
    UpperAt(0);
    LowerAt(0);
    NumeralAt(0);
    InRow(UPPER, 'A', c) by { forall p: nat | p < 26 { UpperAt(p); } }
    InRow(LOWER, 'a', c) by { forall p: nat | p < 26 { LowerAt(p); } }
    InRow(NUMERALS, '0', c) by { forall p: nat | p < 10 { NumeralAt(p); } }
  }

  /** The character sent for a value from 0 to 63. */
  function Sent(s: Base64.Sextet): char {
    if Base64.Digit(s) == '/' then ',' else Base64.Digit(s)
  }

  lemma SentAt(s: Base64.Sextet)
    ensures |ALPHABET| == 64 && ALPHABET[s] == Sent(s)
  {
    UpperAt(0);
    LowerAt(0);
    NumeralAt(0);
    if s < 26 {
      UpperAt(s);
    } else if s < 52 {
      LowerAt(s - 26);
    } else if s < 62 {
      NumeralAt(s - 52);
    }
  }

  lemma SentPlace(s: Base64.Sextet)
    ensures Place(ALPHABET, Sent(s)) == s
  {
    SentAt(s);
    forall q | 0 <= q < s ensures ALPHABET[q] != Sent(s) {
      SentAt(q);
    }
    FirstPlace(ALPHABET, Sent(s), s);
  }

  /** The bits a run of digits spells. */
  function Spelled(wire: string): seq<bool> {
    if wire == "" then [] else Bits(Place(ALPHABET, wire[0]), 6) + Spelled(wire[1..])
  }

  lemma {:induction false} SpelledJoin(a: string, b: string)
    ensures Spelled(a + b) == Spelled(a) + Spelled(b)
  {
    if a == "" {
      assert a + b == b;
    } else {
      assert (a + b)[1..] == a[1..] + b;
      SpelledJoin(a[1..], b);
    }
  }

  lemma SpelledOne(s: Base64.Sextet)
    ensures Spelled([Sent(s)]) == Bits(s, 6)
  {
    SentPlace(s);
    assert Spelled([Sent(s)]) == Bits(s, 6) + Spelled([]);
  }

  // ---------- bytes as digits ----------

  lemma ByteAt(b: Utf16.Byte)
    ensures Bits(b, 8) == Bits(b / 4, 6) + Bits(b % 4, 2) == Bits(b / 16, 4) + Bits(b % 16, 4) == Bits(b / 64, 2) + Bits(b % 64, 6)
  {
    Powers();
    BitsJoin(b / 4, b % 4, 6, 2);
    BitsJoin(b / 16, b % 16, 4, 4);
    BitsJoin(b / 64, b % 64, 2, 6);
  }

  lemma Across(x: nat, y: nat, w: nat, k: nat)
    requires (w == 2 && k == 4 && y < 16) || (w == 4 && k == 2 && y < 4)
    ensures Bits(x * (if k == 4 then 16 else 4) + y, 6) == Bits(x, w) + Bits(y, k)
  {
    Powers();
    BitsJoin(x, y, w, k);
  }

  function Wire(digits: string): string {
    Replace(digits, '/', ',')
  }

  lemma WireJoin(a: string, b: string)
    ensures Wire(a + b) == Wire(a) + Wire(b)
  {
  }

  lemma SpelledTwo(s: Base64.Sextet, t: Base64.Sextet)
    ensures Spelled(Wire([Base64.Digit(s), Base64.Digit(t)])) == Bits(s, 6) + Bits(t, 6)
  {
    SpelledOne(s);
    SpelledOne(t);
    SpelledJoin([Sent(s)], [Sent(t)]);
    assert Wire([Base64.Digit(s), Base64.Digit(t)]) == [Sent(s)] + [Sent(t)];
  }

  lemma SpelledThree(s: Base64.Sextet, t: Base64.Sextet, u: Base64.Sextet)
    ensures Spelled(Wire([Base64.Digit(s), Base64.Digit(t), Base64.Digit(u)])) == Bits(s, 6) + Bits(t, 6) + Bits(u, 6)
  {
    hide Spelled, Bits, Wire, Base64.Digit;
    SpelledTwo(s, t);
    SpelledOne(u);
    SpelledJoin(Wire([Base64.Digit(s), Base64.Digit(t)]), Wire([Base64.Digit(u)]));
    WireJoin([Base64.Digit(s), Base64.Digit(t)], [Base64.Digit(u)]);
    WireOne(u);
    assert [Base64.Digit(s), Base64.Digit(t)] + [Base64.Digit(u)] == [Base64.Digit(s), Base64.Digit(t), Base64.Digit(u)];
  }

  lemma WireOne(s: Base64.Sextet)
    ensures Wire([Base64.Digit(s)]) == [Sent(s)]
  {
  }

  lemma OneByte(b: Utf16.Byte)
    ensures Spelled(Wire(Base64.Digits([b]))) == Bits(b, 8) + Zeros(4)
  {
    hide Spelled, Bits, Wire, Base64.Digit;
    ByteAt(b);
    Across(b % 4, 0, 2, 4);
    SpelledTwo(b / 4, (b % 4) * 16);
    ZeroBits(4);
  }

  lemma ZeroBits(n: nat)
    ensures Bits(0, n) == Zeros(n)
  {
    if n > 0 { ZeroBits(n - 1); }
  }

  lemma Recut<T>(a: seq<T>, b: seq<T>, c: seq<T>, d: seq<T>, e: seq<T>, f: seq<T>)
    ensures a + (b + c) + (d + (e + f)) == a + (b + c) + (d + e) + f == (a + (b + c)) + ((d + e) + f) == (a + b) + (c + d) + (e + f)
  {
  }

  lemma TwoBytes(b: Utf16.Byte, c: Utf16.Byte)
    ensures Spelled(Wire(Base64.Digits([b, c]))) == Bits(b, 8) + Bits(c, 8) + Zeros(2)
  {
    hide Spelled, Bits, Wire, Base64.Digit;
    ByteAt(b);
    ByteAt(c);
    Across(b % 4, c / 16, 2, 4);
    Across(c % 16, 0, 4, 2);
    SpelledThree(b / 4, (b % 4) * 16 + c / 16, (c % 16) * 4);
    ZeroBits(2);
    Recut(Bits(b / 4, 6), Bits(b % 4, 2), Bits(c / 16, 4), Bits(c % 16, 4), Bits(0, 2), []);
    assert Bits(0, 2) + [] == Bits(0, 2);
    assert Base64.Digits([b, c]) == [Base64.Digit(b / 4), Base64.Digit((b % 4) * 16 + c / 16), Base64.Digit((c % 16) * 4)];
  }

  lemma FirstTwo(b: Utf16.Byte, c: Utf16.Byte)
    ensures Spelled(Wire([Base64.Digit(b / 4), Base64.Digit((b % 4) * 16 + c / 16)])) == Bits(b / 4, 6) + (Bits(b % 4, 2) + Bits(c / 16, 4))
  {
    hide Spelled, Bits, Wire, Base64.Digit;
    Across(b % 4, c / 16, 2, 4);
    SpelledTwo(b / 4, (b % 4) * 16 + c / 16);
  }

  lemma LastTwo(c: Utf16.Byte, d: Utf16.Byte)
    ensures Spelled(Wire([Base64.Digit((c % 16) * 4 + d / 64), Base64.Digit(d % 64)])) == (Bits(c % 16, 4) + Bits(d / 64, 2)) + Bits(d % 64, 6)
  {
    hide Spelled, Bits, Wire, Base64.Digit;
    Across(c % 16, d / 64, 4, 2);
    SpelledTwo((c % 16) * 4 + d / 64, d % 64);
  }

  lemma ThreeBytes(b: Utf16.Byte, c: Utf16.Byte, d: Utf16.Byte)
    ensures Spelled(Wire(Base64.Group(b, c, d))) == Bits(b, 8) + Bits(c, 8) + Bits(d, 8)
  {
    hide Spelled, Bits, Wire, Base64.Digit;
    FirstTwo(b, c);
    LastTwo(c, d);
    var first := [Base64.Digit(b / 4), Base64.Digit((b % 4) * 16 + c / 16)];
    var second := [Base64.Digit((c % 16) * 4 + d / 64), Base64.Digit(d % 64)];
    assert Base64.Group(b, c, d) == first + second;
    WireJoin(first, second);
    SpelledJoin(Wire(first), Wire(second));
    Recut(Bits(b / 4, 6), Bits(b % 4, 2), Bits(c / 16, 4), Bits(c % 16, 4), Bits(d / 64, 2), Bits(d % 64, 6));
    EightBits(b, c, d);
  }

  lemma EightBits(b: Utf16.Byte, c: Utf16.Byte, d: Utf16.Byte)
    ensures Bits(b, 8) == Bits(b / 4, 6) + Bits(b % 4, 2) && Bits(c, 8) == Bits(c / 16, 4) + Bits(c % 16, 4)
    ensures Bits(d, 8) == Bits(d / 64, 2) + Bits(d % 64, 6)
  {
    hide Bits;
    ByteAt(b);
    ByteAt(c);
    ByteAt(d);
  }

  /** Main result: the digits spell the bytes, bit by bit, followed by fewer than six zero bits and nothing else. */
  lemma {:induction false} DigitsSpellBytes(bytes: seq<Utf16.Byte>)
    ensures Spelled(Wire(Base64.Digits(bytes))) == ByteBits(bytes) + Zeros(Unused(|bytes|))
  {
    hide Spelled, Bits, Wire, Base64.Digit, Base64.Digits, ByteBits;
    if |bytes| < 3 {
      FewBytes(bytes);
    } else {
      var b, c, d, rest := bytes[0], bytes[1], bytes[2], bytes[3..];
      ThreeBytes(b, c, d);
      DigitsSpellBytes(rest);
      assert Base64.Digits(bytes) == Base64.Group(b, c, d) + Base64.Digits(rest) by { GroupFirst(bytes); }
      WireJoin(Base64.Group(b, c, d), Base64.Digits(rest));
      SpelledJoin(Wire(Base64.Group(b, c, d)), Wire(Base64.Digits(rest)));
      assert bytes == [b, c, d] + rest;
      ByteBitsJoin([b, c, d], rest);
      ThreeByteBits(b, c, d);
      assert ByteBits(bytes) + Zeros(Unused(|bytes|)) == ByteBits([b, c, d]) + (ByteBits(rest) + Zeros(Unused(|rest|)));
    }
  }

  /** How many bits of the last digit are left over. */
  function Unused(n: nat): (bits: nat)
    ensures bits < 6 && (n >= 3 ==> bits == Unused(n - 3))
  {
    if n % 3 == 0 then 0 else 6 - 2 * (n % 3)
  }

  lemma GroupFirst(bytes: seq<Utf16.Byte>)
    requires |bytes| >= 3
    ensures Base64.Digits(bytes) == Base64.Group(bytes[0], bytes[1], bytes[2]) + Base64.Digits(bytes[3..])
  {
  }

  lemma FewBytes(bytes: seq<Utf16.Byte>)
    requires |bytes| < 3
    ensures Spelled(Wire(Base64.Digits(bytes))) == ByteBits(bytes) + Zeros(Unused(|bytes|))
  {
    hide *;
    if |bytes| == 0 {
      NoBytes();
      assert bytes == [];
    } else if |bytes| == 1 {
      OneByte(bytes[0]);
      FewByteBits(bytes[0], 0);
      FewUnused();
      assert bytes == [bytes[0]];
    } else {
      TwoBytes(bytes[0], bytes[1]);
      FewByteBits(bytes[0], bytes[1]);
      FewUnused();
      assert bytes == [bytes[0], bytes[1]];
    }
  }

  lemma FewUnused()
    ensures Unused(1) == 4 && Unused(2) == 2
  {
  }

  lemma FewByteBits(b: Utf16.Byte, c: Utf16.Byte)
    ensures ByteBits([b]) == Bits(b, 8) && ByteBits([b, c]) == Bits(b, 8) + Bits(c, 8)
  {
    hide Bits;
    assert [b, c][1..] == [c] && [b][1..] == [] && [c][1..] == [];
    assert ByteBits([c]) == Bits(c, 8) + ByteBits([]);
  }

  lemma ThreeByteBits(b: Utf16.Byte, c: Utf16.Byte, d: Utf16.Byte)
    ensures ByteBits([b, c, d]) == Bits(b, 8) + Bits(c, 8) + Bits(d, 8)
  {
    hide Bits;
    assert [b, c, d][1..] == [c, d] && [c, d][1..] == [d] && [d][1..] == [];
    assert ByteBits([d]) == Bits(d, 8) + ByteBits([]);
    assert ByteBits([c, d]) == Bits(c, 8) + ByteBits([d]);
  }

  lemma NoBytes()
    ensures Spelled(Wire(Base64.Digits([]))) == [] == ByteBits([]) + Zeros(Unused(0))
  {
    assert Wire("") == "";
  }

  // ---------- characters as bytes ----------

  const HIGH := [true, true, false, true, true, false]
  const LOW := [true, true, false, true, true, true]

  /** The units of a character: itself in sixteen bits, or beyond 0xFFFF the ten upper and ten lower bits of what
      exceeds it, each behind six bits that mark which half it is. */
  function CharBits(c: char): seq<bool> {
    var n := c as int;
    if n < 0x1_0000 then Bits(n, 16)
    else HIGH + Bits((n - 0x1_0000) / 0x400, 10) + LOW + Bits((n - 0x1_0000) % 0x400, 10)
  }

  function TextBits(text: string): seq<bool> {
    if text == "" then [] else CharBits(text[0]) + TextBits(text[1..])
  }

  lemma UnitSpelled(unit: nat)
    requires unit < 0x1_0000
    ensures ByteBits(Utf16.UnitBytes(unit)) == Bits(unit, 16)
  {
    Powers();
    BitsJoin(unit / 256, unit % 256, 8, 8);
    var bytes := Utf16.UnitBytes(unit);
    assert bytes[1..] == [bytes[1]] && bytes[1..][1..] == [];
  }

  lemma Marked(mark: nat, v: nat)
    requires v < 0x400 && (mark == 54 || mark == 55)
    ensures Bits(mark * 0x400 + v, 16) == (if mark == 54 then HIGH else LOW) + Bits(v, 10)
  {
    Powers();
    BitsJoin(mark, v, 6, 10);
    MarkBits();
  }

  lemma MarkBits()
    ensures Bits(54, 6) == HIGH && Bits(55, 6) == LOW
  {
    assert Bits(3, 2) == [true, true];
    assert Bits(6, 3) == [true, true, false];
    assert Bits(13, 4) == [true, true, false, true];
    assert Bits(27, 5) == [true, true, false, true, true];
  }

  lemma CharSpelled(c: char)
    ensures ByteBits(Utf16.EncodeChar(c)) == CharBits(c) && |Utf16.EncodeChar(c)| % 2 == 0
  {
    hide Bits, ByteBits;
    var n := c as int;
    if n < 0x1_0000 {
      UnitSpelled(n);
    } else {
      var v := n - 0x1_0000;
      UnitSpelled(54 * 0x400 + v / 0x400);
      UnitSpelled(55 * 0x400 + v % 0x400);
      Marked(54, v / 0x400);
      Marked(55, v % 0x400);
      ByteBitsJoin(Utf16.UnitBytes(54 * 0x400 + v / 0x400), Utf16.UnitBytes(55 * 0x400 + v % 0x400));
    }
  }

  /** The bytes of a text are its big-endian units. */
  lemma {:induction false} TextSpelled(text: string)
    ensures ByteBits(Utf16.Encode(text)) == TextBits(text)
  {
    if text != "" {
      CharSpelled(text[0]);
      ByteBitsJoin(Utf16.EncodeChar(text[0]), Utf16.Encode(text[1..]));
      TextSpelled(text[1..]);
    }
  }

  lemma {:induction false} SpelledSize(wire: string)
    ensures |Spelled(wire)| == 6 * |wire|
  {
    if wire != "" { SpelledSize(wire[1..]); }
  }

  /** Main result: the inside of a shift consists of the alphabet's characters and spells the text's units, bit by
      bit, with no more digits than that takes and zeros in what the last one has left. */
  lemma ShiftSpelled(text: string)
    ensures var wire := ModifiedUtf7.ModifiedEncode(text);
            && (forall c <- wire :: Place(ALPHABET, c) < 64)
            && TextBits(text) <= Spelled(wire) && 6 * |wire| == |Spelled(wire)| < |TextBits(text)| + 6
            && forall i :: |TextBits(text)| <= i < |Spelled(wire)| ==> !Spelled(wire)[i]
  {
    hide Bits, ByteBits, Spelled, TextBits, Base64.Digits, Utf16.Encode, Place, ModifiedUtf7.ShiftDigit, Base64.Encode;
    var bytes, wire := Utf16.Encode(text), ModifiedUtf7.ModifiedEncode(text);
    ModifiedUtf7.ShiftAlphabet(text);
    DigitsSpellBytes(bytes);
    TextSpelled(text);
    SpelledSize(wire);
    assert wire == Wire(Base64.Digits(bytes)) by { EncodedDigits(bytes); }
    forall c <- wire ensures Place(ALPHABET, c) < 64 {
      assert ModifiedUtf7.ShiftDigit(c);
      DigitPlace(c);
    }
  }

  lemma EncodedDigits(bytes: seq<Utf16.Byte>)
    ensures Replace(RightStrip(Base64.Encode(bytes), '='), '/', ',') == Wire(Base64.Digits(bytes))
  {
    ModifiedUtf7.StripPadding(Base64.Digits(bytes), Base64.PadLength(bytes));
  }

  lemma DigitPlace(c: char)
    requires ModifiedUtf7.ShiftDigit(c)
    ensures Place(ALPHABET, c) < 64
  {
    var s: Base64.Sextet := if c == ',' then 63 else Base64.Value(c);
    SentPlace(s);
    assert c == Sent(s);
  }

  /** There is only one such text of digits, so what is sent is settled to the last bit. */
  lemma {:induction false} SpelledOnce(a: string, b: string)
    requires (forall c <- a + b :: Place(ALPHABET, c) < 64) && Spelled(a) == Spelled(b)
    ensures a == b
  {
    SpelledSize(a);
    SpelledSize(b);
    hide Bits, ALPHABET, Place;
    if a != "" {
      assert a[0] in a + b && b[0] in a + b;
      Powers();
      assert Bits(Place(ALPHABET, a[0]), 6) == Spelled(a)[..6] == Bits(Place(ALPHABET, b[0]), 6);
      BitsOnce(Place(ALPHABET, a[0]), Place(ALPHABET, b[0]), 6);
      assert |ALPHABET| == 64 by { SentAt(0); }
      assert ALPHABET[Place(ALPHABET, a[0])] == a[0] && ALPHABET[Place(ALPHABET, b[0])] == b[0];
      assert Spelled(a)[6..] == Spelled(a[1..]) && Spelled(b)[6..] == Spelled(b[1..]);
      assert forall c <- a[1..] + b[1..] :: c in a + b;
      SpelledOnce(a[1..], b[1..]);
      assert a == [a[0]] + a[1..] && b == [b[0]] + b[1..];
    }
  }

  lemma {:induction false} BitsOnce(m: nat, n: nat, width: nat)
    requires m < Power(width) && n < Power(width) && Bits(m, width) == Bits(n, width)
    ensures m == n
  {
    if width > 0 {
      assert Bits(m, width)[..width - 1] == Bits(m / 2, width - 1) && Bits(n, width)[..width - 1] == Bits(n / 2, width - 1);
      assert Bits(m, width)[width - 1] == (m % 2 == 1) && Bits(n, width)[width - 1] == (n % 2 == 1);
      BitsOnce(m / 2, n / 2, width - 1);
    }
  }
}
