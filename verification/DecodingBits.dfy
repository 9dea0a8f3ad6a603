/**
 What the decoder makes of any name at all, encoded by the program or not: imap/utils.py lines 44-47 and 70-89.
 Characters are read through the alphabet of section 4 of RFC 4648 as EncodingBits spells it out.
 */
module DecodingBits {
  import opened Outcome
  import opened Text
  import opened EncodingBits
  import Utf16
  import Base64
  import ModifiedUtf7

  // ---------- digits ----------

  predicate Plain(chunk: string) {
    forall c <- chunk :: c as int < 0x80 && c != '='
  }

  /** The digits of a chunk: other characters are passed over, and the slash is the comma. */
  function Kept(chunk: string): string {
    if chunk == "" then ""
    else (if chunk[0] == '/' then "," else if Place(ALPHABET, chunk[0]) < 64 then [chunk[0]] else "") + Kept(chunk[1..])
  }

  lemma {:induction false} KeptSize(chunk: string)
    ensures |Kept(chunk)| <= |chunk|
  {
    if chunk != "" { KeptSize(chunk[1..]); }
  }

  /** What the base64 alphabet calls a digit is what the wire alphabet has, the slash and the comma aside. */
  lemma DigitIff(c: char)
    ensures Place(ALPHABET, c) < 64 <==> c == ',' || (Base64.IsDigit(c) && c != '/')
    ensures Base64.IsDigit(c) && c != '/' ==> Place(ALPHABET, c) == Base64.Value(c)
    ensures Place(ALPHABET, ',') == 63 == Base64.Value('/')
  {
    hide Place, ALPHABET;
    SentPlace(63);
    if c == ',' || (Base64.IsDigit(c) && c != '/') {
      DigitPlace(c);
      if c != ',' { SentPlace(Base64.Value(c)); }
    } else if Place(ALPHABET, c) < 64 {
      SentAt(Place(ALPHABET, c));
    }
  }

  /** How many bits the decoder holds that it has not yet put into a byte. */
  function Held(at: Base64.Cursor): nat
    requires at.Valid()
  {
    if at.quad == 0 then 0 else if at.quad == 1 then 6 else if at.quad == 2 then 4 else 2
  }

  function HeldBits(at: Base64.Cursor): seq<bool>
    requires at.Valid()
  {
    Bits(at.carry, Held(at))
  }

  lemma Splits(v: Base64.Sextet)
    ensures Bits(v, 6) == Bits(v / 16, 2) + Bits(v % 16, 4) == Bits(v / 4, 4) + Bits(v % 4, 2)
  {
    Powers();
    BitsJoin(v / 16, v % 16, 2, 4);
    BitsJoin(v / 4, v % 4, 4, 2);
  }

  lemma Completes(x: nat, y: nat, k: nat)
    requires (k == 2 && y < 4) || (k == 4 && y < 16) || (k == 6 && y < 64)
    ensures Bits(x * (if k == 2 then 4 else if k == 4 then 16 else 64) + y, 8) == Bits(x, 8 - k) + Bits(y, k)
  {
    Powers();
    BitsJoin(x, y, 8 - k, k);
  }

  lemma OneByteBits(b: Utf16.Byte)
    ensures ByteBits([b]) == Bits(b, 8)
  {
    assert ByteBits([b]) == Bits(b, 8) + ByteBits([]);
  }

  /** What is held and the next digit are the byte that comes out, if any, and what is held then. */
  lemma FeedMiddle(at: Base64.Cursor, v: Base64.Sextet)
    requires at.Valid() && at.quad != 0
    ensures var (bytes, next) := Base64.Feed(at, v);
            |bytes| == 1 && Bits(bytes[0], 8) + HeldBits(next) == HeldBits(at) + Bits(v, 6)
  {
    hide Bits, ByteBits;
    Splits(v);
    if at.quad == 1 {
      Completes(at.carry, v / 16, 2);
    } else if at.quad == 2 {
      Completes(at.carry, v / 4, 4);
    } else {
      Completes(at.carry, v, 6);
      NoBits(0);
    }
  }

  /** One digit more: nothing is lost and nothing is made up. */
  lemma FeedBits(at: Base64.Cursor, v: Base64.Sextet)
    requires at.Valid()
    ensures var (bytes, next) := Base64.Feed(at, v);
            && ByteBits(bytes) + HeldBits(next) == HeldBits(at) + Bits(v, 6)
            && next.quad == (at.quad + 1) % 4 && next.pads == 0
  {
    hide Bits, ByteBits;
    if at.quad == 0 {
      NoBits(at.carry);
    } else {
      FeedMiddle(at, v);
      var bytes := Base64.Feed(at, v).0;
      OneByteBits(bytes[0]);
      assert bytes == [bytes[0]];
      hide HeldBits;
    }
  }

  lemma NoBits(n: nat)
    ensures Bits(n, 0) == [] && ByteBits([]) == []
  {
  }

  /** How a decoding ends that has read `n` digits and finds `pads` padding characters. */
  function Ending(n: nat, pads: nat): Option<Base64.PaddingError> {
    if n % 4 == 1 then Some(Base64.DataLength)
    else if n % 4 == 0 || n % 4 + pads >= 4 then None
    else Some(Base64.IncorrectPadding)
  }

  lemma {:induction false} PadsEnd(at: Base64.Cursor, p: nat)
    requires at.Valid() && (at.quad < 2 || at.quad + at.pads < 4)
    ensures Base64.DecodeFrom(Base64.Pad(p), at) ==
            match Ending(at.quad, at.pads + p) case None => Ok([]) case Some(e) => Err(e)
    decreases p
  {
    if p > 0 {
      assert Base64.Pad(p)[1..] == Base64.Pad(p - 1);
      if at.quad < 2 {
        PadsEnd(at, p - 1);
      } else if at.quad + at.pads + 1 < 4 {
        PadsEnd(at.(pads := at.pads + 1), p - 1);
      }
    }
  }

  function Whole(bits: seq<bool>): (whole: seq<bool>)
    ensures |whole| == |bits| / 8 * 8
  {
    bits[..|bits| / 8 * 8]
  }

  lemma {:induction false} BytesSize(bytes: seq<Utf16.Byte>)
    ensures |ByteBits(bytes)| == 8 * |bytes|
  {
    if bytes != [] { BytesSize(bytes[1..]); }
  }

  /** The bytes that come out are the bits that went in, as far as they fill bytes. */
  lemma {:induction false} DecodeSpells(chunk: string, at: Base64.Cursor, p: nat) returns (bytes: seq<Utf16.Byte>)
    requires at.Valid() && at.pads == 0 && Plain(chunk)
    ensures Base64.DecodeFrom(Replace(chunk, ',', '/') + Base64.Pad(p), at) ==
            match Ending(at.quad + |Kept(chunk)|, p) case None => Ok(bytes) case Some(e) => Err(e)
    ensures ByteBits(bytes) == Whole(HeldBits(at) + Spelled(Kept(chunk)))
    decreases |chunk|
  {
    var text := Replace(chunk, ',', '/') + Base64.Pad(p);
    hide Base64.DecodeFrom, Spelled, Kept, Bits, ByteBits, Base64.Feed, Place, Base64.IsDigit, Base64.Value, Replace, Plain, Whole, Ending, HeldBits,
         Held, Base64.Pad;
    if chunk == "" {
      NothingRead(at, p);
      bytes := [];
    } else {
      var rest := chunk[1..];
      FirstOf(chunk, p);
      if !Base64.IsDigit(text[0]) {
        bytes := DecodeSpells(rest, at, p);
        PassedOver(text, at);
      } else {
        var v := Base64.Value(text[0]);
        var fed := Base64.Feed(at, v);
        FeedBits(at, v);
        var more := DecodeSpells(rest, fed.1, p);
        bytes := fed.0 + more;
        var c := if chunk[0] == '/' then ',' else chunk[0];
        SpelledStep(c, Kept(rest));
        BytesSize(fed.0);
        WholeStep(fed.0, more, HeldBits(at), Bits(v, 6), HeldBits(fed.1), Spelled(Kept(rest)));
        FedFirst(text, at, more, |Kept(rest)|, p);
      }
    }
  }

  lemma NothingRead(at: Base64.Cursor, p: nat)
    requires at.Valid() && at.pads == 0
    ensures Base64.DecodeFrom(Replace("", ',', '/') + Base64.Pad(p), at) ==
            match Ending(at.quad + |Kept("")|, p) case None => Ok([]) case Some(e) => Err(e)
    ensures ByteBits([]) == Whole(HeldBits(at) + Spelled(Kept("")))
  {
    assert Replace("", ',', '/') + Base64.Pad(p) == Base64.Pad(p);
    PadsEnd(at, p);
    assert HeldBits(at) + Spelled("") == HeldBits(at) && |HeldBits(at)| < 8;
  }

  /** The first character of a chunk: a digit that is kept, or one that is passed over. */
  lemma FirstOf(chunk: string, p: nat)
    requires Plain(chunk) && chunk != ""
    ensures var text, rest := Replace(chunk, ',', '/') + Base64.Pad(p), chunk[1..];
            && text[1..] == Replace(rest, ',', '/') + Base64.Pad(p) && text[0] != '=' && Plain(rest)
            && (!Base64.IsDigit(text[0]) ==> Kept(chunk) == Kept(rest))
            && (Base64.IsDigit(text[0]) ==>
                  var c := if chunk[0] == '/' then ',' else chunk[0];
                  Kept(chunk) == [c] + Kept(rest) && Place(ALPHABET, c) == Base64.Value(text[0]))
  {
    hide Place;
    assert chunk[0] in chunk && forall c <- chunk[1..] :: c in chunk;
    DigitIff(chunk[0]);
  }

  lemma PassedOver(text: string, at: Base64.Cursor)
    requires at.Valid() && text != "" && text[0] != '=' && !Base64.IsDigit(text[0])
    ensures Base64.DecodeFrom(text, at) == Base64.DecodeFrom(text[1..], at)
  {
  }

  lemma SpelledStep(c: char, rest: string)
    ensures Spelled([c] + rest) == Bits(Place(ALPHABET, c), 6) + Spelled(rest)
  {
    assert ([c] + rest)[1..] == rest;
  }

  lemma FedFirst(text: string, at: Base64.Cursor, more: seq<Utf16.Byte>, n: nat, p: nat)
    requires at.Valid() && text != "" && Base64.IsDigit(text[0])
    requires var next := Base64.Feed(at, Base64.Value(text[0])).1;
             Base64.DecodeFrom(text[1..], next) == match Ending(next.quad + n, p) case None => Ok(more) case Some(e) => Err(e)
    ensures Base64.DecodeFrom(text, at) ==
            match Ending(at.quad + (n + 1), p) case None => Ok(Base64.Feed(at, Base64.Value(text[0])).0 + more) case Some(e) => Err(e)
  {
    hide Ending, Base64.DecodeFrom, Base64.Feed, Base64.Value, Base64.IsDigit, Bits, ByteBits, HeldBits;
    var v := Base64.Value(text[0]);
    FeedBits(at, v);
    EndingStep(at.quad, Base64.Feed(at, v).1.quad, n, p);
    FedStep(text, at);
  }

  lemma FedStep(text: string, at: Base64.Cursor)
    requires at.Valid() && text != "" && Base64.IsDigit(text[0])
    ensures var fed := Base64.Feed(at, Base64.Value(text[0]));
            Base64.DecodeFrom(text, at) ==
            match Base64.DecodeFrom(text[1..], fed.1) case Ok(more) => Ok(fed.0 + more) case Err(e) => Err(e)
  {
  }

  lemma EndingStep(quad: nat, next: nat, n: nat, p: nat)
    requires quad < 4 && next == if quad == 3 then 0 else quad + 1
    ensures Ending(next + n, p) == Ending(quad + (n + 1), p)
  {
    if quad == 3 {
      assert quad + (n + 1) == n + 4;
      FourMore(n);
    }
    hide Ending;
  }

  lemma FourMore(n: nat)
    ensures forall p :: Ending(n + 4, p) == Ending(n, p)
  {
    assert (n + 4) % 4 == n % 4;
  }

  lemma WholeStep(first: seq<Utf16.Byte>, more: seq<Utf16.Byte>, held: seq<bool>, six: seq<bool>, next: seq<bool>, rest: seq<bool>)
    requires ByteBits(first) + next == held + six && |ByteBits(first)| == 8 * |first|
    requires ByteBits(more) == Whole(next + rest)
    ensures ByteBits(first + more) == Whole(held + (six + rest))
  {
    ByteBitsJoin(first, more);
    hide ByteBits;
    var all := held + (six + rest);
    assert all == (held + six) + rest == (ByteBits(first) + next) + rest == ByteBits(first) + (next + rest);
    assert |all| / 8 == |first| + |next + rest| / 8;
    assert all[..|all| / 8 * 8] == ByteBits(first) + (next + rest)[..|next + rest| / 8 * 8];
  }

  // ---------- bytes as text ----------

  lemma CharAgain(unit: nat)
    requires unit < 0x1_0000 && !(Utf16.HIGH_SURROGATE <= unit < Utf16.AFTER_SURROGATES)
    ensures Utf16.EncodeChar(unit as char) == Utf16.UnitBytes(unit)
  {
  }

  lemma PairAgain(high: nat, low: nat)
    requires Utf16.HIGH_SURROGATE <= high < Utf16.LOW_SURROGATE <= low < Utf16.AFTER_SURROGATES
    ensures Utf16.EncodeChar(Utf16.SurrogatePair(high, low)) == Utf16.UnitBytes(high) + Utf16.UnitBytes(low)
  {
  }

  lemma UnitAgain(bytes: seq<Utf16.Byte>, i: nat)
    requires i + 1 < |bytes|
    ensures Utf16.UnitBytes(Utf16.UnitAt(bytes, i)) == bytes[i..i + 2]
  {
  }

  /** Main result: bytes are decoded to a text exactly if they are how that text is encoded. */
  lemma {:induction false} DecodesIff(bytes: seq<Utf16.Byte>, text: string)
    ensures Utf16.Decode(bytes) == Ok(text) <==> Utf16.Encode(text) == bytes
  {
    Utf16.RoundTrip(text);
    if Utf16.Decode(bytes) == Ok(text) { DecodedEncodes(bytes); }
  }

  lemma {:induction false} DecodedEncodes(bytes: seq<Utf16.Byte>)
    requires Utf16.Decode(bytes).Ok?
    ensures Utf16.Encode(Utf16.Decode(bytes).value) == bytes
    decreases |bytes|
  {
    hide Utf16.EncodeChar, Utf16.UnitBytes, Utf16.SurrogatePair;
    if |bytes| > 0 {
      var unit := Utf16.UnitAt(bytes, 0);
      UnitAgain(bytes, 0);
      if Utf16.HIGH_SURROGATE <= unit < Utf16.LOW_SURROGATE {
        var low := Utf16.UnitAt(bytes, 2);
        UnitAgain(bytes, 2);
        PairAgain(unit, low);
        DecodedEncodes(bytes[4..]);
        FirstEncoded(Utf16.SurrogatePair(unit, low), Utf16.Decode(bytes[4..]).value);
        assert bytes == bytes[0..2] + bytes[2..4] + bytes[4..];
      } else {
        CharAgain(unit);
        DecodedEncodes(bytes[2..]);
        FirstEncoded(unit as char, Utf16.Decode(bytes[2..]).value);
        assert bytes == bytes[0..2] + bytes[2..];
      }
    }
  }

  lemma FirstEncoded(c: char, text: string)
    ensures Utf16.Encode([c] + text) == Utf16.EncodeChar(c) + Utf16.Encode(text)
  {
    assert ([c] + text)[1..] == text;
  }

  // ---------- a chunk ----------

  lemma {:induction false} BytesOnce(a: seq<Utf16.Byte>, b: seq<Utf16.Byte>)
    requires ByteBits(a) == ByteBits(b)
    ensures a == b
  {
    BytesSize(a);
    BytesSize(b);
    if a != [] {
      Powers();
      assert Bits(a[0], 8) == ByteBits(a)[..8] == ByteBits(b)[..8] == Bits(b[0], 8);
      BitsOnce(a[0], b[0], 8);
      assert ByteBits(a)[8..] == ByteBits(a[1..]) && ByteBits(b)[8..] == ByteBits(b[1..]);
      BytesOnce(a[1..], b[1..]);
      assert a == [a[0]] + a[1..] && b == [b[0]] + b[1..];
    }
  }

  /** Main result: a chunk is decoded to a text exactly if its digits can end where they do and spell, as far as they
      fill bytes, the units of that text. The padding a chunk gets depends on its length, not on its digits. */
  lemma ChunkDecodesIff(chunk: string, text: string)
    requires Plain(chunk)
    ensures ModifiedUtf7.ModifiedDecode(chunk) == Ok(text) <==>
            Ending(|Kept(chunk)|, -|chunk| % 4) == None && Whole(Spelled(Kept(chunk))) == TextBits(text)
  {
    var bytes := DecodeSpells(chunk, Base64.START, -|chunk| % 4);
    NoBits(0);
    assert HeldBits(Base64.START) + Spelled(Kept(chunk)) == Spelled(Kept(chunk));
    DecodesIff(bytes, text);
    TextSpelled(text);
    if ByteBits(bytes) == TextBits(text) { BytesOnce(bytes, Utf16.Encode(text)); }
    NoneBeyond(chunk, -|chunk| % 4);
    hide Base64.DecodeFrom, Spelled, Kept, Bits, ByteBits, Utf16.Decode, Utf16.Encode;
  }

  /** A chunk is refused for its characters exactly if one of them is not ASCII. */
  lemma NonAsciiIff(chunk: string)
    ensures ModifiedUtf7.ModifiedDecode(chunk) == Err(ModifiedUtf7.NonAscii) <==> exists c <- chunk :: c as int >= 0x80
  {
    hide Base64.Decode, Utf16.Decode;
    var data := Replace(chunk, ',', '/') + Base64.Pad(Base64.Missing(|chunk|));
    forall c | c as int >= 0x80 ensures c in data <==> c in chunk {
      if c in chunk {
        var i :| 0 <= i < |chunk| && chunk[i] == c;
        assert data[i] == c;
      }
      if c in data {
        var i :| 0 <= i < |data| && data[i] == c;
        assert i < |chunk| && chunk[i] == c;
      }
    }
  }

  lemma NoneBeyond(chunk: string, p: nat)
    requires Plain(chunk)
    ensures !exists c <- Replace(chunk, ',', '/') + Base64.Pad(p) :: c as int >= 0x80
  {
    var data := Replace(chunk, ',', '/') + Base64.Pad(p);
    forall c <- data ensures (c as int) < 0x80 {
      var i :| 0 <= i < |data| && data[i] == c;
      if i < |chunk| { assert chunk[i] in chunk; }
    }
  }

  // ---------- a name ----------

  lemma {:induction false} VerbatimFirst(plain: string, rest: string)
    requires '&' !in plain
    ensures ModifiedUtf7.Decode(plain + rest) == ModifiedUtf7.After(plain, ModifiedUtf7.Decode(rest))
  {
    if plain == "" {
      assert plain + rest == rest;
      ModifiedUtf7.AfterNothing(ModifiedUtf7.Decode(rest));
    } else {
      assert plain[0] in plain && (plain + rest)[1..] == plain[1..] + rest;
      ModifiedUtf7.DecodeVerbatim(plain + rest);
      VerbatimFirst(plain[1..], rest);
      ModifiedUtf7.AfterTwice([plain[0]], plain[1..], ModifiedUtf7.Decode(rest));
      assert [plain[0]] + plain[1..] == plain;
    }
  }

  /** A name whose last ampersand has no end is passed through from there on. */
  lemma UnterminatedPassed(plain: string, tail: string)
    requires '&' !in plain && '-' !in tail
    ensures ModifiedUtf7.Decode(plain + ("&" + tail)) == Ok(plain + ("&" + tail))
  {
    VerbatimFirst(plain, "&" + tail);
    assert forall i :: 0 <= i < |tail| ==> tail[i] in tail;
    ModifiedUtf7.DecodeUnterminated("&" + tail);
  }

  /** Main result: up to the first ampersand a name stands for itself; a shift that is closed stands for an ampersand
      if there is nothing in it, and otherwise for the text its chunk spells, if it spells one. */
  lemma ShiftDecodes(plain: string, chunk: string, rest: string)
    requires '&' !in plain && '-' !in chunk
    ensures ModifiedUtf7.Decode(plain + ("&" + chunk + "-" + rest)) ==
            ModifiedUtf7.After(plain, ModifiedUtf7.AfterToken(if chunk == "" then Ok("&") else ModifiedUtf7.ModifiedDecode(chunk),
                                                              ModifiedUtf7.Decode(rest)))
  {
    VerbatimFirst(plain, "&" + chunk + "-" + rest);
    ModifiedUtf7.ChunkRead(chunk, rest);
    var tokens := ModifiedUtf7.Tokens("&" + chunk + "-" + rest);
    assert tokens[1..] == ModifiedUtf7.Tokens(rest);
  }
}
