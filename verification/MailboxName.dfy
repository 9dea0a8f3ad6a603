/**
 Mailbox names as command arguments: imap/utils.py lines 97-112, read back by the astring
 grammar of sections 4.3 and 9 of RFC 3501.
 */
module MailboxName {
  import opened Outcome
  import ModifiedUtf7
  import EncodingBits

  predicate AtomSafe(c: char) {
    'A' <= c <= 'Z' || 'a' <= c <= 'z' || '0' <= c <= '9' || c in "._/-"
  }

  function Escape(text: string, c: char): string {
    if text == "" then ""
    else (if text[0] == c then ['\\', c] else [text[0]]) + Escape(text[1..], c)
  }

  function EncodeMailbox(name: string): string {
    Argument(ModifiedUtf7.Encode(name))
  }

  function Argument(encoded: string): string {
    if encoded != "" && forall c <- encoded :: AtomSafe(c) then encoded
    else "\"" + Escape(Escape(encoded, '\\'), '"') + "\""
  }

  // ---------- the server's reading of a command argument ----------

  /** TEXT-CHAR: any 7-bit character other than NUL, CR and LF. */
  predicate TextChar(c: char) {
    0 < c as int < 128 && c != '\r' && c != '\n'
  }

  /** ASTRING-CHAR: no specials, no control character, no space. */
  predicate AstringChar(c: char) {
    0x20 < c as int < 0x7F && c !in "(){%*\"\\"
  }

  /** The rest of a quoted string, up to and including the closing quote, which must end it. */
  function ReadQuoted(wire: string): Option<string> {
    if wire == "" then None
    else if wire[0] == '"' then if |wire| == 1 then Some("") else None
    else if wire[0] == '\\' then
      if |wire| >= 2 && wire[1] in "\\\"" then Prepend(wire[1], ReadQuoted(wire[2..])) else None
    else if TextChar(wire[0]) then Prepend(wire[0], ReadQuoted(wire[1..]))
    else None
  }

  function Prepend(c: char, rest: Option<string>): Option<string> {
    if rest.Some? then Some([c] + rest.value) else None
  }

  function ReadAstring(wire: string): Option<string> {
    if wire != "" && wire[0] == '"' then ReadQuoted(wire[1..])
    else if wire != "" && forall c <- wire :: AstringChar(c) then Some(wire)
    else None
  }

  /** What a server that speaks modified UTF-7 takes the argument to name. */
  function ReadMailbox(wire: string): Option<ModifiedUtf7.Decoded> {
    match ReadAstring(wire)
    case Some(encoded) => Some(ModifiedUtf7.Decode(encoded))
    case None => None
  }

  /** The two passes of escaping, character by character: the second one does not touch the
      backslashes the first one added. */
  lemma {:induction false} EscapeBoth(text: string)
    requires text != ""
    ensures Escape(Escape(text, '\\'), '"') ==
            (if text[0] in "\\\"" then ['\\', text[0]] else [text[0]]) + Escape(Escape(text[1..], '\\'), '"')
  {
    var rest := Escape(text[1..], '\\');
    var once := Escape(text, '\\');
    if text[0] == '\\' {
      assert once == ['\\', '\\'] + rest;
      assert once[1..] == ['\\'] + rest && once[1..][1..] == rest;
      assert ['\\'] + (['\\'] + Escape(rest, '"')) == ['\\', '\\'] + Escape(rest, '"');
    } else {
      assert once[1..] == rest;
    }
  }

  lemma {:induction false} QuotedRoundTrip(text: string)
    requires forall c <- text :: TextChar(c)
    ensures ReadQuoted(Escape(Escape(text, '\\'), '"') + "\"") == Some(text)
  {
    if text == "" {
      assert Escape(Escape("", '\\'), '"') + "\"" == "\"";
    } else {
      var c, rest := text[0], Escape(Escape(text[1..], '\\'), '"') + "\"";
      EscapeBoth(text);
      QuotedRoundTrip(text[1..]);
      var wire := Escape(Escape(text, '\\'), '"') + "\"";
      assert text == [c] + text[1..];
      if c in "\\\"" {
        assert wire == ['\\', c] + rest && wire[2..] == rest;
      } else {
        assert wire == [c] + rest && wire[1..] == rest;
      }
    }
  }

  lemma ArgumentRoundTrip(encoded: string)
    requires forall c <- encoded :: TextChar(c)
    ensures ReadAstring(Argument(encoded)) == Some(encoded)
  {
    if encoded != "" && forall c <- encoded :: AtomSafe(c) {
      assert AtomSafe(encoded[0]);
    } else {
      var body := Escape(Escape(encoded, '\\'), '"');
      QuotedRoundTrip(encoded);
      assert ("\"" + body + "\"")[1..] == body + "\"";
    }
  }

  // ---------- which names are sent bare ----------

  lemma SafeIs(c: char)
    ensures AtomSafe(c) <==> c in EncodingBits.UPPER || c in EncodingBits.LOWER || c in EncodingBits.NUMERALS || c in "._/-"
  {
    hide EncodingBits.UPPER, EncodingBits.LOWER, EncodingBits.NUMERALS;
    EncodingBits.RowsAre(c);
  }

  lemma {:induction false} EscapeGrows(text: string, c: char)
    ensures |Escape(text, c)| >= |text|
  {
    if text != "" { EscapeGrows(text[1..], c); }
  }

  /** An argument is sent as it is exactly if it is not empty and has letters, digits, dots, underscores, slashes and
      hyphens only; any other is a quoted string. */
  lemma BareIff(encoded: string)
    ensures Argument(encoded) == encoded <==>
            encoded != "" && forall c <- encoded :: c in EncodingBits.UPPER || c in EncodingBits.LOWER || c in EncodingBits.NUMERALS || c in "._/-"
    ensures Argument(encoded) != encoded ==> Argument(encoded)[0] == '"' == Argument(encoded)[|Argument(encoded)| - 1]
  {
    hide EncodingBits.UPPER, EncodingBits.LOWER, EncodingBits.NUMERALS, AtomSafe, Escape;
    forall c ensures AtomSafe(c) <==> c in EncodingBits.UPPER || c in EncodingBits.LOWER || c in EncodingBits.NUMERALS || c in "._/-" { SafeIs(c); }
    EscapeGrows(encoded, '\\');
    EscapeGrows(Escape(encoded, '\\'), '"');
  }

  /** Main result: a server reads back exactly the name the client meant, whatever it contains. */
  lemma MailboxRoundTrip(name: string)
    ensures ReadAstring(EncodeMailbox(name)) == Some(ModifiedUtf7.Encode(name))
    ensures ReadMailbox(EncodeMailbox(name)) == Some(Ok(name))
  {
    ModifiedUtf7.EncodeIsPrintable(name);
    ModifiedUtf7.RoundTrip(name);
    ArgumentRoundTrip(ModifiedUtf7.Encode(name));
  }

  /** Two mailboxes are never addressed by the same argument. */
  lemma MailboxInjective(a: string, b: string)
    requires EncodeMailbox(a) == EncodeMailbox(b)
    ensures a == b
  {
    MailboxRoundTrip(a);
    MailboxRoundTrip(b);
  }
}
