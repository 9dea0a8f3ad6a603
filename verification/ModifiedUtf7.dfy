/** Modified UTF-7 mailbox names (section 5.1.3 of RFC 3501): imap/utils.py lines 39-89. */
module ModifiedUtf7 {
  import opened Outcome
  import opened Text
  import Utf16
  import Base64

  datatype NameError = NonAscii | BadBase64(padding: Base64.PaddingError) | BadUtf16(codec: Utf16.CodecError)

  type Decoded = Result<string, NameError>

  // ---------- the base64 helpers ----------

  function ModifiedEncode(text: string): string {
    Replace(RightStrip(Base64.Encode(Utf16.Encode(text)), '='), '/', ',')
  }

  function ModifiedDecode(chunk: string): Decoded {
    var data := Replace(chunk, ',', '/') + Base64.Pad(Base64.Missing(|chunk|));
    if exists c <- data :: c as int >= 128 then Err(NonAscii)
    else
      match Base64.Decode(data)
      case Err(e) => Err(BadBase64(e))
      case Ok(bytes) =>
        match Utf16.Decode(bytes)
        case Err(e) => Err(BadUtf16(e))
        case Ok(text) => Ok(text)
  }

  predicate ShiftDigit(c: char) {
    c == ',' || (c != '/' && Base64.IsDigit(c))
  }

  lemma {:induction false} StripPadding(digits: string, n: nat)
    requires forall c <- digits :: Base64.IsDigit(c)
    ensures RightStrip(digits + Base64.Pad(n), '=') == digits
  {
    var padded := digits + Base64.Pad(n);
    if n > 0 {
      assert padded[..|padded| - 1] == digits + Base64.Pad(n - 1);
      StripPadding(digits, n - 1);
    } else {
      assert padded == digits;
      assert digits != "" ==> digits[|digits| - 1] in digits;
    }
  }

  /** What a shifted run looks like on the wire: non-empty, and built so that neither `&` nor `-`
      nor `/` nor padding can occur in it. */
  lemma ShiftAlphabet(text: string)
    ensures forall c <- ModifiedEncode(text) :: ShiftDigit(c)
    ensures text != "" ==> ModifiedEncode(text) != ""
    ensures Replace(ModifiedEncode(text), ',', '/') == Base64.Digits(Utf16.Encode(text))
  {
    var bytes := Utf16.Encode(text);
    StripPadding(Base64.Digits(bytes), Base64.PadLength(bytes));
    Base64.PaddingRestored(bytes);
    var wire, digits := ModifiedEncode(text), Base64.Digits(bytes);
    forall i | 0 <= i < |digits|
      ensures ShiftDigit(wire[i]) && Replace(wire, ',', '/')[i] == digits[i]
    {
      assert Base64.IsDigit(digits[i]);
    }
  }

  lemma PaddingComesBack(wire: string, digits: string, pad: nat)
    requires Replace(wire, ',', '/') == digits
    requires Base64.Missing(|digits|) == pad
    ensures Replace(wire, ',', '/') + Base64.Pad(Base64.Missing(|wire|)) == digits + Base64.Pad(pad)
  {
  }

  lemma Base64IsAscii(bytes: seq<Utf16.Byte>)
    ensures forall c <- Base64.Encode(bytes) :: c as int < 128
  {
    forall c <- Base64.Encode(bytes)
      ensures c as int < 128
    {
      assert c in Base64.Digits(bytes) || c in Base64.Pad(Base64.PadLength(bytes));
    }
  }

  /** A shifted run of any length, surrogate pairs included, survives base64 with its padding
      stripped and restored. */
  lemma ShiftRoundTrip(text: string)
    ensures ModifiedDecode(ModifiedEncode(text)) == Ok(text)
  {
    var bytes := Utf16.Encode(text);
    ShiftAlphabet(text);
    Base64.PaddingRestored(bytes);
    PaddingComesBack(ModifiedEncode(text), Base64.Digits(bytes), Base64.PadLength(bytes));
    Base64IsAscii(bytes);
    Base64.RoundTrip(bytes);
    Utf16.RoundTrip(text);
    DecodesTo(ModifiedEncode(text), Base64.Encode(bytes), bytes, text);
  }

  lemma DecodesTo(chunk: string, data: string, bytes: seq<Utf16.Byte>, text: string)
    requires Replace(chunk, ',', '/') + Base64.Pad(Base64.Missing(|chunk|)) == data
    requires forall c <- data :: c as int < 128
    requires Base64.Decode(data) == Ok(bytes) && Utf16.Decode(bytes) == Ok(text)
    ensures ModifiedDecode(chunk) == Ok(text)
  {
  }

  // ---------- names as pieces ----------

  predicate Printable(c: char) {
    0x20 <= c as int <= 0x7E
  }

  /** A printable character, or a maximal run of characters that have to be shifted. */
  datatype Piece = Plain(c: char) | Shifted(text: string)

  ghost predicate Canonical(pieces: seq<Piece>) {
    && (forall i :: 0 <= i < |pieces| ==> WellFormed(pieces[i]))
    && (forall i :: 0 <= i < |pieces| - 1 ==> pieces[i].Plain? || pieces[i + 1].Plain?)
  }

  ghost predicate WellFormed(p: Piece) {
    match p
    case Plain(c) => Printable(c)
    case Shifted(text) => text != "" && forall c <- text :: !Printable(c)
  }

  function Source(pieces: seq<Piece>): string {
    if pieces == [] then ""
    else (if pieces[0].Plain? then [pieces[0].c] else pieces[0].text) + Source(pieces[1..])
  }

  function Pieces(name: string): seq<Piece> {
    if name == "" then []
    else
      var rest := Pieces(name[1..]);
      if Printable(name[0]) then [Plain(name[0])] + rest
      else if rest != [] && rest[0].Shifted? then [Shifted([name[0]] + rest[0].text)] + rest[1..]
      else [Shifted([name[0]])] + rest
  }

  function Wire(p: Piece): string {
    match p
    case Plain(c) => if c == '&' then "&-" else [c]
    case Shifted(text) => "&" + ModifiedEncode(text) + "-"
  }

  function Wires(pieces: seq<Piece>): seq<string> {
    seq(|pieces|, i requires 0 <= i < |pieces| => Wire(pieces[i]))
  }

  function Concat(parts: seq<string>): string {
    if parts == [] then "" else parts[0] + Concat(parts[1..])
  }

  function Print(pieces: seq<Piece>): string {
    Concat(Wires(pieces))
  }

  function Encode(name: string): string {
    Print(Pieces(name))
  }

  lemma {:induction false} PiecesCanonical(name: string)
    ensures Canonical(Pieces(name))
    ensures Source(Pieces(name)) == name
  {
    if name != "" {
      PiecesCanonical(name[1..]);
      var rest := Pieces(name[1..]);
      assert name == [name[0]] + name[1..];
      if Printable(name[0]) {
        assert Pieces(name)[1..] == rest;
      } else if rest != [] && rest[0].Shifted? {
        assert Pieces(name)[1..] == rest[1..];
        assert WellFormed(rest[0]);
        assert forall i :: 1 <= i < |rest| ==> Pieces(name)[i] == rest[i];
      } else {
        assert Pieces(name)[1..] == rest;
      }
    }
  }

  /** There is one canonical way to cut a name up, so a loop that keeps its pieces canonical
      computes `Pieces`. */
  lemma {:induction false} CanonicalUnique(pieces: seq<Piece>)
    requires Canonical(pieces)
    ensures Pieces(Source(pieces)) == pieces
  {
    if pieces != [] {
      var rest := pieces[1..];
      assert Canonical(rest) by {
        assert forall i :: 0 <= i < |rest| ==> rest[i] == pieces[i + 1];
      }
      CanonicalUnique(rest);
      assert WellFormed(pieces[0]);
      if pieces[0].Plain? {
        PrependPlain(pieces[0].c, rest);
      } else {
        PrependRun(pieces[0].text, rest);
      }
      assert pieces == [pieces[0]] + rest;
    }
  }

  lemma PrependPlain(c: char, rest: seq<Piece>)
    requires Printable(c) && Pieces(Source(rest)) == rest
    ensures Pieces([c] + Source(rest)) == [Plain(c)] + rest
  {
    assert ([c] + Source(rest))[1..] == Source(rest);
  }

  lemma {:induction false} PrependRun(run: string, rest: seq<Piece>)
    requires run != "" && forall c <- run :: !Printable(c)
    requires rest == [] || rest[0].Plain?
    requires Pieces(Source(rest)) == rest
    ensures Pieces(run + Source(rest)) == [Shifted(run)] + rest
  {
    assert (run + Source(rest))[1..] == run[1..] + Source(rest);
    assert run[0] in run;
    if |run| == 1 {
      assert run[1..] + Source(rest) == Source(rest);
      assert [run[0]] == run;
    } else {
      PrependRun(run[1..], rest);
      assert [run[0]] + run[1..] == run;
    }
  }

  lemma {:induction false} SourceSnoc(pieces: seq<Piece>, p: Piece)
    ensures Source(pieces + [p]) == Source(pieces) + if p.Plain? then [p.c] else p.text
  {
    if pieces == [] {
      assert [] + [p] == [p];
    } else {
      SourceSnoc(pieces[1..], p);
      assert (pieces + [p])[1..] == pieces[1..] + [p];
    }
  }

  /** The source's flush: the pending run, if any, becomes one shifted piece. */
  ghost function Flushed(pieces: seq<Piece>, run: string): seq<Piece> {
    if run == "" then pieces else pieces + [Shifted(run)]
  }

  method Flush(out: seq<string>, run: string, ghost pieces: seq<Piece>) returns (flushed: seq<string>)
    requires out == Wires(pieces)
    ensures flushed == Wires(Flushed(pieces, run))
  {
    flushed := out;
    if run != "" {
      flushed := out + ["&" + ModifiedEncode(run) + "-"];
    }
  }

  method ImapUtf7Encode(name: string) returns (encoded: string)
    ensures encoded == Encode(name)
  {
    var out: seq<string>, run := [], "";
    ghost var pieces: seq<Piece> := [];
    for i := 0 to |name|
      invariant out == Wires(pieces)
      invariant IsSplit(Flushed(pieces, run), name[..i])
      invariant pieces == [] || pieces[|pieces| - 1].Plain?
    {
      var ch := name[i];
      assert name[..i + 1] == name[..i] + [ch];
      if Printable(ch) {
        out := Flush(out, run, pieces);
        pieces, run := Flushed(pieces, run), "";
        out := out + [if ch == '&' then "&-" else [ch]];
        AddPlain(pieces, ch, name[..i]);
        pieces := pieces + [Plain(ch)];
      } else {
        GrowRun(pieces, run, ch, name[..i]);
        run := run + [ch];
      }
    }
    out := Flush(out, run, pieces);
    assert name[..|name|] == name;
    CanonicalUnique(Flushed(pieces, run));
    encoded := Concat(out);
  }

  ghost predicate IsSplit(pieces: seq<Piece>, name: string) {
    Canonical(pieces) && Source(pieces) == name
  }

  lemma AddPlain(pieces: seq<Piece>, ch: char, name: string)
    requires Printable(ch)
    requires IsSplit(pieces, name)
    ensures IsSplit(pieces + [Plain(ch)], name + [ch])
  {
    SourceSnoc(pieces, Plain(ch));
  }

  lemma GrowRun(pieces: seq<Piece>, run: string, ch: char, name: string)
    requires !Printable(ch)
    requires IsSplit(Flushed(pieces, run), name)
    requires pieces == [] || pieces[|pieces| - 1].Plain?
    ensures IsSplit(Flushed(pieces, run + [ch]), name + [ch])
  {
    var grown := Flushed(pieces, run + [ch]);
    SourceSnoc(pieces, Shifted(run + [ch]));
    if run != "" {
      SourceSnoc(pieces, Shifted(run));
      assert WellFormed(Flushed(pieces, run)[|pieces|]);
    }
    forall i | 0 <= i < |grown|
      ensures WellFormed(grown[i])
    {
      if i < |pieces| { assert Flushed(pieces, run)[i] == grown[i]; }
    }
    forall i | 0 <= i < |grown| - 1
      ensures grown[i].Plain? || grown[i + 1].Plain?
    {
      if i + 1 < |pieces| { assert Flushed(pieces, run)[i].Plain? || Flushed(pieces, run)[i + 1].Plain?; }
    }
  }

  // ---------- decoding ----------

  /** What the decoder's scan cuts a name into: text passed through, or the inside of `&...-`. */
  datatype Token = Verbatim(text: string) | Chunk(digits: string)

  function Find(text: string, c: char, from: nat): (at: Option<nat>)
    requires from <= |text|
    ensures at.Some? ==> from <= at.value < |text| && text[at.value] == c
    ensures forall k :: from <= k < (if at.Some? then at.value else |text|) ==> text[k] != c
    decreases |text| - from
  {
    if from == |text| then None
    else if text[from] == c then Some(from)
    else Find(text, c, from + 1)
  }

  function Tokens(name: string): seq<Token> {
    if name == "" then []
    else if name[0] != '&' then [Verbatim([name[0]])] + Tokens(name[1..])
    else
      match Find(name, '-', 1)
      case None => [Verbatim(name)]
      case Some(end) => [Chunk(name[1..end])] + Tokens(name[end + 1..])
  }

  function DecodeToken(t: Token): Decoded {
    match t
    case Verbatim(text) => Ok(text)
    case Chunk(digits) => if digits == "" then Ok("&") else ModifiedDecode(digits)
  }

  function Join(tokens: seq<Token>): Decoded {
    if tokens == [] then Ok("")
    else
      var first :- DecodeToken(tokens[0]);
      var rest :- Join(tokens[1..]);
      Ok(first + rest)
  }

  function Decode(name: string): Decoded {
    Join(Tokens(name))
  }

  /** The fast path answers what the scan would have. */
  lemma {:induction false} FastPath(name: string)
    requires '&' !in name
    ensures Decode(name) == Ok(name)
  {
    if name != "" {
      FastPath(name[1..]);
      assert name == [name[0]] + name[1..];
      assert Tokens(name)[1..] == Tokens(name[1..]);
    }
  }

  /** What is still to be decoded, put after what has been. */
  function After(done: string, rest: Decoded): Decoded {
    match rest
    case Ok(text) => Ok(done + text)
    case Err(e) => Err(e)
  }

  function AfterToken(part: Decoded, rest: Decoded): Decoded {
    match part
    case Ok(text) => After(text, rest)
    case Err(e) => Err(e)
  }

  lemma DecodeVerbatim(name: string)
    requires name != "" && name[0] != '&'
    ensures Decode(name) == After([name[0]], Decode(name[1..]))
  {
    assert Tokens(name)[1..] == Tokens(name[1..]);
  }

  lemma DecodeUnterminated(name: string)
    requires name != "" && name[0] == '&' && Find(name, '-', 1).None?
    ensures Decode(name) == Ok(name)
  {
    assert Tokens(name) == [Verbatim(name)] && Tokens(name)[1..] == [];
    assert Join([]) == Ok("") && name + "" == name;
  }

  lemma DecodeChunk(name: string)
    requires name != "" && name[0] == '&' && Find(name, '-', 1).Some?
    ensures var end := Find(name, '-', 1).value;
            Decode(name) == AfterToken(DecodeToken(Chunk(name[1..end])), Decode(name[end + 1..]))
  {
    hide DecodeToken;
    assert Tokens(name)[1..] == Tokens(name[Find(name, '-', 1).value + 1..]);
  }

  lemma FindInSuffix(name: string, c: char, i: nat)
    requires i < |name|
    ensures match Find(name[i..], c, 1)
            case None => Find(name, c, i + 1).None?
            case Some(at) => Find(name, c, i + 1) == Some(i + at)
  {
    assert forall k :: i + 1 <= k < |name| ==> name[k] == name[i..][k - i];
    var here := Find(name[i..], c, 1);
    assert here.Some? ==> name[i + here.value] == c;
  }

  /** With `out` decoded, everything from `i` on is still to come. */
  ghost predicate Pending(name: string, out: string, i: nat) {
    i <= |name| && Decode(name) == After(out, Decode(name[i..]))
  }

  method ImapUtf7Decode(name: string) returns (decoded: Decoded)
    ensures decoded == Decode(name)
  {
    hide ModifiedDecode, DecodeToken, Tokens, Join, Decode;
    if '&' !in name {
      FastPath(name);
      return Ok(name);
    }
    var out, i := "", 0;
    PendingAtStart(name);
    while i < |name|
      invariant Pending(name, out, i)
      decreases |name| - i
    {
      var ch := name[i];
      if ch != '&' {
        PendingAfterVerbatim(name, out, i);
        out, i := out + [ch], i + 1;
        continue;
      }
      var end := Find(name, '-', i + 1);
      if end.None? {
        DecodeStepAt(name, i);
        return Ok(out + name[i..]);
      }
      var part := DecodeToken(Chunk(name[i + 1..end.value]));
      if part.Err? {
        DecodeStepAt(name, i);
        return part;
      }
      PendingAfterChunk(name, out, i, end.value, part.value);
      out, i := out + part.value, end.value + 1;
    }
    PendingAtEnd(name, out);
    return Ok(out);
  }

  lemma PendingAtStart(name: string)
    ensures Pending(name, "", 0)
  {
    assert name[0..] == name;
    AfterNothing(Decode(name));
  }

  lemma PendingAtEnd(name: string, out: string)
    requires Pending(name, out, |name|)
    ensures Decode(name) == Ok(out)
  {
    assert name[|name|..] == "" && Decode("") == Ok("") && out + "" == out;
  }

  lemma PendingAfterVerbatim(name: string, out: string, i: nat)
    requires Pending(name, out, i) && i < |name| && name[i] != '&'
    ensures Pending(name, out + [name[i]], i + 1)
  {
    DecodeStepAt(name, i);
    AfterTwice(out, [name[i]], Decode(name[i + 1..]));
  }

  lemma PendingAfterChunk(name: string, out: string, i: nat, end: nat, part: string)
    requires Pending(name, out, i) && i < |name| && name[i] == '&' && Find(name, '-', i + 1) == Some(end)
    requires DecodeToken(Chunk(name[i + 1..end])) == Ok(part)
    ensures Pending(name, out + part, end + 1)
  {
    hide ModifiedDecode, Tokens, Join, Decode;
    DecodeStepAt(name, i);
    AfterTwice(out, part, Decode(name[end + 1..]));
  }

  lemma DecodeStepAt(name: string, i: nat)
    requires i < |name|
    ensures name[i] != '&' ==> Decode(name[i..]) == After([name[i]], Decode(name[i + 1..]))
    ensures name[i] == '&' && Find(name, '-', i + 1).None? ==> Decode(name[i..]) == Ok(name[i..])
    ensures name[i] == '&' && Find(name, '-', i + 1).Some? ==>
              Decode(name[i..]) == AfterToken(DecodeToken(Chunk(name[i + 1..Find(name, '-', i + 1).value])),
                                              Decode(name[Find(name, '-', i + 1).value + 1..]))
  {
    var rest := name[i..];
    FindInSuffix(name, '-', i);
    hide Decode, DecodeToken, Tokens, Join;
    if name[i] != '&' {
      DecodeVerbatim(rest);
      assert rest[1..] == name[i + 1..];
    } else if Find(rest, '-', 1).None? {
      DecodeUnterminated(rest);
    } else {
      DecodeChunk(rest);
      var end := Find(rest, '-', 1).value;
      assert rest[1..end] == name[i + 1..i + end];
      assert rest[end + 1..] == name[i + end + 1..];
    }
  }

  lemma AfterNothing(rest: Decoded)
    ensures After("", rest) == rest
  {
    if rest.Ok? { assert "" + rest.value == rest.value; }
  }

  lemma AfterTwice(a: string, b: string, rest: Decoded)
    ensures After(a, After(b, rest)) == After(a + b, rest)
  {
    if rest.Ok? { assert a + (b + rest.value) == a + b + rest.value; }
  }

  // ---------- the round trip ----------

  function TokenOf(p: Piece): Token {
    match p
    case Plain(c) => if c == '&' then Chunk("") else Verbatim([c])
    case Shifted(text) => Chunk(ModifiedEncode(text))
  }

  lemma ChunkRead(digits: string, rest: string)
    requires '-' !in digits
    ensures Tokens("&" + digits + "-" + rest) == [Chunk(digits)] + Tokens(rest)
  {
    var wire := "&" + digits + "-" + rest;
    assert forall i :: 0 <= i < |digits| ==> wire[1 + i] == digits[i] && digits[i] in digits;
    assert wire[1 + |digits|] == '-';
    assert Find(wire, '-', 1) == Some(1 + |digits|);
    assert wire[1..1 + |digits|] == digits && wire[2 + |digits|..] == rest;
  }

  /** The scan cuts encoded text exactly where the encoder joined it. */
  lemma TokenRead(p: Piece, rest: string)
    ensures Tokens(Wire(p) + rest) == [TokenOf(p)] + Tokens(rest)
  {
    if p == Plain('&') {
      ChunkRead("", rest);
      assert "&" + "" + "-" == "&-";
    } else if p.Plain? {
      assert ([p.c] + rest)[1..] == rest;
    } else {
      ShiftAlphabet(p.text);
      ChunkRead(ModifiedEncode(p.text), rest);
    }
  }

  lemma TokenMeaning(p: Piece)
    requires WellFormed(p)
    ensures DecodeToken(TokenOf(p)) == Ok(if p.Plain? then [p.c] else p.text)
  {
    if p.Shifted? {
      ShiftAlphabet(p.text);
      ShiftRoundTrip(p.text);
    }
  }

  lemma PrintFirst(pieces: seq<Piece>)
    requires pieces != []
    ensures Print(pieces) == Wire(pieces[0]) + Print(pieces[1..])
  {
    assert Wires(pieces)[1..] == Wires(pieces[1..]);
  }

  /** A character from the space to the tilde is sent as itself, an ampersand as `&-`, whatever follows. */
  lemma PlainSent(c: char, rest: string)
    requires 0x20 <= c as int <= 0x7E
    ensures Encode([c] + rest) == (if c == '&' then "&-" else [c]) + Encode(rest)
  {
    var name := [c] + rest;
    assert name[1..] == rest;
    assert Pieces(name)[1..] == Pieces(rest);
    PrintFirst(Pieces(name));
  }

  /** All other characters that stand together are sent as one shift. */
  lemma RunSent(run: string, rest: string)
    requires run != "" && forall c <- run :: !(0x20 <= c as int <= 0x7E)
    requires rest == "" || 0x20 <= rest[0] as int <= 0x7E
    ensures Encode(run + rest) == "&" + ModifiedEncode(run) + "-" + Encode(rest)
  {
    hide ModifiedEncode;
    PiecesCanonical(rest);
    PrependRun(run, Pieces(rest));
    assert ([Shifted(run)] + Pieces(rest))[1..] == Pieces(rest);
    PrintFirst([Shifted(run)] + Pieces(rest));
  }

  lemma {:induction false} PrintDecodes(pieces: seq<Piece>)
    requires forall p <- pieces :: WellFormed(p)
    ensures Decode(Print(pieces)) == Ok(Source(pieces))
    ensures |Tokens(Print(pieces))| == |pieces|
    ensures forall i :: 0 <= i < |pieces| ==> Tokens(Print(pieces))[i] == TokenOf(pieces[i])
  {
    if pieces != [] {
      PrintFirst(pieces);
      PrintDecodes(pieces[1..]);
      TokenRead(pieces[0], Print(pieces[1..]));
      TokenMeaning(pieces[0]);
      assert Tokens(Print(pieces))[1..] == Tokens(Print(pieces[1..]));
    }
  }

  /** Main result: decoding an encoded name gives the name back, for every Unicode string. */
  lemma RoundTrip(name: string)
    ensures Decode(Encode(name)) == Ok(name)
  {
    PiecesCanonical(name);
    PrintDecodes(Pieces(name));
  }

  /** Two names never share an encoding. */
  lemma Injective(a: string, b: string)
    requires Encode(a) == Encode(b)
    ensures a == b
  {
    RoundTrip(a);
    RoundTrip(b);
  }

  /** Section 5.1.3 of RFC 3501: no two shifts stand side by side (`&-` for a literal ampersand is
      not a shift), and a shift never carries a character that could have been sent as itself. */
  lemma ShiftsStandApart(name: string)
    ensures var tokens := Tokens(Encode(name));
            && (forall i :: 0 <= i < |tokens| - 1 && tokens[i].Chunk? && tokens[i].digits != "" ==>
                              tokens[i + 1].Verbatim? || tokens[i + 1].digits == "")
            && (forall t <- tokens :: t.Chunk? && t.digits != "" ==>
                                        DecodeToken(t).Ok? && forall c <- DecodeToken(t).value :: !(0x20 <= c as int <= 0x7E))
  {
    var pieces := Pieces(name);
    PiecesCanonical(name);
    PrintDecodes(pieces);
    var tokens := Tokens(Encode(name));
    forall i | 0 <= i < |tokens|
      ensures tokens[i].Chunk? && tokens[i].digits != "" ==> pieces[i].Shifted?
      ensures pieces[i].Shifted? ==> DecodeToken(tokens[i]) == Ok(pieces[i].text)
    {
      assert WellFormed(pieces[i]);
      TokenMeaning(pieces[i]);
    }
  }

  lemma WireIsPrintable(p: Piece)
    requires WellFormed(p)
    ensures forall c <- Wire(p) :: Printable(c)
  {
    if p.Shifted? {
      ShiftAlphabet(p.text);
      ShiftIsPrintable(ModifiedEncode(p.text));
    }
  }

  lemma ShiftIsPrintable(digits: string)
    requires forall c <- digits :: ShiftDigit(c)
    ensures forall c <- "&" + digits + "-" :: Printable(c)
  {
  }

  lemma {:induction false} PrintIsPrintable(pieces: seq<Piece>)
    requires forall p <- pieces :: WellFormed(p)
    ensures forall c <- Print(pieces) :: Printable(c)
  {
    if pieces != [] {
      PrintFirst(pieces);
      PrintIsPrintable(pieces[1..]);
      WireIsPrintable(pieces[0]);
    }
  }

  /** Only printable ASCII goes on the wire. */
  lemma EncodeIsPrintable(name: string)
    ensures forall c <- Encode(name) :: 0x20 <= c as int <= 0x7E
  {
    PiecesCanonical(name);
    PrintIsPrintable(Pieces(name));
  }
}
