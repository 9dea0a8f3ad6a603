/**
 Scanning an inline FETCH line and its ENVELOPE: imap/_parsing.py lines 24-266. The specification works
 on the text still to be read; the methods below it keep the source's indices.
 */
module FetchScanner {
  import opened Outcome
  import opened Text
  import opened Decimal

  // ---------- pieces of text ----------

  /** How much a scan takes that goes on while `p` holds. */
  function Span(text: string, stops: string): (n: nat)
    ensures n <= |text|
    ensures forall i :: 0 <= i < n ==> text[i] !in stops
    ensures n < |text| ==> text[n] in stops
  {
    if text == "" || text[0] in stops then 0 else 1 + Span(text[1..], stops)
  }

  function SkipSpaces(text: string): (rest: string)
    ensures |rest| <= |text| && (rest == "" || rest[0] != ' ')
  {
    if text != "" && text[0] == ' ' then SkipSpaces(text[1..]) else text
  }

  /** How much is read until the parentheses opened so far are closed, or everything. */
  function Group(text: string, depth: nat): (n: nat)
    ensures n <= |text|
    ensures depth > 0 && text != "" ==> n > 0
  {
    if text == "" || depth == 0 then 0
    else 1 + Group(text[1..], if text[0] == '(' then depth + 1 else if text[0] == ')' then depth - 1 else depth)
  }

  /** The content of a group: what was read less its last character, the closing parenthesis. */
  function Content(text: string): string {
    var n := Group(text, 1);
    if n == 0 then "" else text[..n - 1]
  }

  function Words(text: string): seq<string>
    decreases |text|
  {
    if text == "" then []
    else if IsSpace(text[0]) then Words(text[1..])
    else
      var n := WordLength(text);
      [text[..n]] + Words(text[n..])
  }

  function WordLength(text: string): (n: nat)
    ensures n <= |text| && (text != "" && !IsSpace(text[0]) ==> n > 0)
    ensures forall i :: 0 <= i < n ==> !IsSpace(text[i])
    ensures n < |text| ==> IsSpace(text[n])
  {
    if text == "" || IsSpace(text[0]) then 0 else 1 + WordLength(text[1..])
  }

  function Strip(text: string): string
    decreases |text|
  {
    if text == "" then ""
    else if IsSpace(text[0]) then Strip(text[1..])
    else if IsSpace(text[|text| - 1]) then Strip(text[..|text| - 1])
    else text
  }

  function Upper(text: string): string {
    seq(|text|, i requires 0 <= i < |text| => if 'a' <= text[i] <= 'z' then (text[i] as int - 32) as char else text[i])
  }

  // ---------- the first address ----------

  /** The values of an address: quoted strings, NIL, and bare atoms. */
  function Parts(text: string): seq<string>
    decreases |text|
  {
    if text == "" then []
    else if text[0] == ' ' then Parts(text[1..])
    else if text[0] == '"' then
      var n := Span(text[1..], "\"");
      [text[1..][..n]] + Parts(if 1 + n < |text| then text[n + 2..] else "")
    else if "NIL" <= text then [""] + Parts(text[3..])
    else
      var n := Span(text, " ");
      [text[..n]] + Parts(text[n..])
  }

  function Formatted(parts: seq<string>): string {
    if |parts| < 4 then ""
    else if parts[0] != "" then parts[0] + " <" + parts[2] + "@" + parts[3] + ">"
    else if parts[2] != "" && parts[3] != "" then parts[2] + "@" + parts[3]
    else ""
  }

  function FirstAddress(list: string): string {
    var text := Strip(list);
    if text == "" then ""
    else if text[0] == '(' then Formatted(Parts(Content(text[1..])))
    else Formatted(Parts(text))
  }

  // ---------- the envelope ----------

  /** One field and what follows it. */
  function ReadField(text: string): (string, string) {
    var s := SkipSpaces(text);
    if s == "" then ("", "")
    else if s[0] == '"' then
      var n := Span(s[1..], "\"");
      (s[1..][..n], if 1 + n < |s| then s[n + 2..] else "")
    else if "NIL" <= s then ("", s[3..])
    else if s[0] == '(' then (FirstAddress(Content(s[1..])), s[1..][Group(s[1..], 1)..])
    else (s[..Span(s, " ")], s[Span(s, " ")..])
  }

  function ReadFields(text: string, n: nat): (seq<string>, string) {
    if n == 0 then ([], text)
    else
      var (fields, rest) := ReadFields(text, n - 1);
      var (field, left) := ReadField(rest);
      (fields + [field], left)
  }

  datatype Headers = Headers(subject: string, from: string, to: string, date: string, messageId: string)

  function Fields(text: string): (f: seq<string>)
    ensures |f| == 10
  {
    FieldCount(text, 10);
    ReadFields(text, 10).0
  }

  lemma FieldCount(text: string, n: nat)
    ensures |ReadFields(text, n).0| == n
  {
  }

  function EnvelopeOf(text: string): Headers {
    var f := Fields(text);
    Headers(f[1], f[2], f[5], f[0], f[9])
  }

  // ---------- the line ----------

  datatype Meta = Meta(flags: seq<string>, internalDate: string, size: nat, headers: Headers)

  const BLANK := Meta([], "", 0, Headers("", "", "", "", ""))

  /** The scan of a line: finished, given up, or stuck for ever at a closing parenthesis. */
  datatype Scan = Scanned(meta: Meta) | Unusable | Stuck

  function WithGroup(m: Meta, key: string, content: string): Meta {
    if key == "FLAGS" then m.(flags := Words(content))
    else if key == "ENVELOPE" then m.(headers := EnvelopeOf(content))
    else m
  }

  function WithQuoted(m: Meta, key: string, value: string): Meta {
    if key == "INTERNALDATE" then
      m.(internalDate := value, headers := if m.headers.date == "" then m.headers.(date := value) else m.headers)
    else m
  }

  function WithAtom(m: Meta, key: string, value: string): Meta {
    if key == "RFC822.SIZE" && Parse(value).Some? then m.(size := Parse(value).value) else m
  }

  /** Read the attributes of a line. A closing parenthesis where a key should be is neither skipped nor
      read, so the source's loop never moves on from it. */
  function Attributes(text: string, m: Meta): Scan
    decreases |text|
  {
    if text == "" then Scanned(m)
    else if text[0] == ' ' then Attributes(text[1..], m)
    else if text[0] == ')' then Stuck
    else
      var n := Span(text, " )");
      var key, s := Upper(text[..n]), SkipSpaces(text[n..]);
      if s == "" then Scanned(m)
      else if s[0] == '(' then Attributes(s[1..][Group(s[1..], 1)..], WithGroup(m, key, Content(s[1..])))
      else if s[0] == '"' then
        var k := Span(s[1..], "\"");
        Attributes(if 1 + k < |s| then s[k + 2..] else "", WithQuoted(m, key, s[1..][..k]))
      else
        var k := Span(s, " )");
        Attributes(s[k..], WithAtom(m, key, s[..k]))
  }

  function FromParenthesis(line: string): string {
    if line == "" || line[0] == '(' then line else FromParenthesis(line[1..])
  }

  function ScanLine(line: string): Scan {
    var text := FromParenthesis(line);
    if |text| < 2 || text[|text| - 1] != ')' then Unusable else Attributes(text[1..|text| - 1], BLANK)
  }

  // ---------- the source's loops ----------

  lemma SpanIs(text: string, stops: string, n: nat)
    requires n <= |text| && (forall i :: 0 <= i < n ==> text[i] !in stops) && (n < |text| ==> text[n] in stops)
    ensures Span(text, stops) == n
  {
    if n > 0 { SpanIs(text[1..], stops, n - 1); }
  }

  method FindStop(text: string, i: nat, stops: string) returns (j: nat)
    requires i <= |text|
    ensures i <= j <= |text| && j == i + Span(text[i..], stops)
  {
    j := i;
    while j < |text| && text[j] !in stops
      invariant i <= j <= |text| && forall k :: i <= k < j ==> text[k] !in stops
    {
      j := j + 1;
    }
    SpanIs(text[i..], stops, j - i);
  }

  method SkipFrom(text: string, i: nat) returns (j: nat)
    requires i <= |text|
    ensures i <= j <= |text| && text[j..] == SkipSpaces(text[i..])
  {
    j := i;
    while j < |text| && text[j] == ' '
      invariant i <= j <= |text| && SkipSpaces(text[j..]) == SkipSpaces(text[i..])
    {
      assert text[j..][1..] == text[j + 1..];
      j := j + 1;
    }
  }

  /** From just behind an opening parenthesis to just behind the matching one. */
  method CloseGroup(text: string, i: nat) returns (j: nat)
    requires i <= |text|
    ensures i <= j <= |text| && j == i + Group(text[i..], 1)
  {
    var depth := 1;
    j := i;
    while j < |text| && depth > 0
      invariant i <= j <= |text| && depth >= 0
      invariant j + Group(text[j..], depth) == i + Group(text[i..], 1)
    {
      assert text[j..][0] == text[j] && text[j..][1..] == text[j + 1..];
      if text[j] == '(' {
        depth := depth + 1;
      } else if text[j] == ')' {
        depth := depth - 1;
      }
      j := j + 1;
    }
  }

  /** `text[i:j - 1]` for a group read from `i` to `j`. */
  function Inner(text: string, i: nat, j: nat): (inner: string)
    requires i <= j <= |text|
    ensures j == i + Group(text[i..], 1) ==> inner == Content(text[i..])
  {
    if j == i then "" else
      assert text[i..][..j - i - 1] == text[i..j - 1];
      text[i..j - 1]
  }

  lemma Suffix(text: string, i: nat, j: nat)
    requires i <= j <= |text|
    ensures text[i..][j - i..] == text[j..] && text[i..][..j - i] == text[i..j]
  {
  }

  /** Where a quoted string that opens at `i` and whose quote was looked for up to `j` leaves off. */
  function Past(text: string, j: nat): (next: nat)
    requires j <= |text|
    ensures j <= next <= |text|
  {
    if j < |text| then j + 1 else j
  }

  lemma QuotedAt(text: string, i: nat, j: nat)
    requires i < |text| && i < j <= |text| && j == i + 1 + Span(text[i + 1..], "\"")
    ensures var rest := text[i..]; var n := Span(rest[1..], "\"");
            && rest[1..][..n] == text[i + 1..j]
            && (if 1 + n < |rest| then rest[n + 2..] else "") == text[Past(text, j)..]
  {
    var rest := text[i..];
    assert rest[1..] == text[i + 1..];
    Suffix(text, i + 1, j);
    if j < |text| { Suffix(text, i, j + 1); }
  }

  lemma NilAt(text: string, i: nat)
    requires i <= |text|
    ensures "NIL" <= text[i..] <==> i + 3 <= |text| && text[i..i + 3] == "NIL"
    ensures i + 3 <= |text| ==> text[i..][3..] == text[i + 3..]
  {
    if i + 3 <= |text| { Suffix(text, i, i + 3); }
  }

  lemma PartsAt(text: string, i: nat, j: nat)
    requires i < |text| && i <= j <= |text|
    ensures text[i] == ' ' ==> Parts(text[i..]) == Parts(text[i + 1..])
    ensures text[i] == '"' && i < j && j == i + 1 + Span(text[i + 1..], "\"") ==>
              Parts(text[i..]) == [text[i + 1..j]] + Parts(text[Past(text, j)..])
    ensures i + 3 <= |text| && text[i..i + 3] == "NIL" ==> Parts(text[i..]) == [""] + Parts(text[i + 3..])
    ensures text[i] != ' ' && text[i] != '"' && !(i + 3 <= |text| && text[i..i + 3] == "NIL") && j == i + Span(text[i..], " ") ==>
              Parts(text[i..]) == [text[i..j]] + Parts(text[j..])
  {
    hide Span, Parts;
    var rest := text[i..];
    assert rest[0] == text[i] && rest[1..] == text[i + 1..];
    if text[i] == '"' && i < j && j == i + 1 + Span(text[i + 1..], "\"") { QuotedAt(text, i, j); }
    NilAt(text, i);
    Suffix(text, i, j);
    PartsStep(rest);
  }

  lemma PartsStep(text: string)
    requires text != ""
    ensures text[0] == ' ' ==> Parts(text) == Parts(text[1..])
    ensures text[0] == '"' ==>
              var n := Span(text[1..], "\"");
              Parts(text) == [text[1..][..n]] + Parts(if 1 + n < |text| then text[n + 2..] else "")
    ensures "NIL" <= text ==> Parts(text) == [""] + Parts(text[3..])
    ensures text[0] != ' ' && text[0] != '"' && !("NIL" <= text) ==>
              Parts(text) == [text[..Span(text, " ")]] + Parts(text[Span(text, " ")..])
  {
  }

  lemma Regroup(a: seq<string>, part: string, b: seq<string>)
    ensures (a + [part]) + b == a + ([part] + b)
  {
  }

  method SplitParts(text: string) returns (parts: seq<string>)
    ensures parts == Parts(text)
  {
    hide Parts, Span;
    parts := [];
    var i := 0;
    assert text[0..] == text;
    while i < |text|
      invariant 0 <= i <= |text| && parts + Parts(text[i..]) == Parts(text)
    {
      PartsAt(text, i, i);
      if text[i] == ' ' {
        i := i + 1;
      } else if text[i] == '"' {
        var j := FindStop(text, i + 1, "\"");
        PartsAt(text, i, j);
        Regroup(parts, text[i + 1..j], Parts(text[Past(text, j)..]));
        parts := parts + [text[i + 1..j]];
        i := Past(text, j);
      } else if i + 3 <= |text| && text[i..i + 3] == "NIL" {
        Regroup(parts, "", Parts(text[i + 3..]));
        parts := parts + [""];
        i := i + 3;
      } else {
        var j := FindStop(text, i, " ");
        PartsAt(text, i, j);
        SpanMoves(text, i, " ");
        Regroup(parts, text[i..j], Parts(text[j..]));
        parts := parts + [text[i..j]];
        i := j;
      }
    }
    NoParts(text, i);
  }

  lemma NoParts(text: string, i: nat)
    requires i == |text|
    ensures Parts(text[i..]) == []
  {
  }

  lemma SpanMoves(text: string, i: nat, stops: string)
    requires i < |text| && text[i] !in stops
    ensures Span(text[i..], stops) > 0
  {
  }

  method FormatFirstAddress(list: string) returns (address: string)
    ensures address == FirstAddress(list)
  {
    var text := Strip(list);
    if text == "" { return ""; }
    var inner := text;
    if text[0] == '(' {
      var j := CloseGroup(text, 1);
      inner := Inner(text, 1, j);
    }
    var parts := SplitParts(inner);
    return Formatted(parts);
  }

  lemma FieldStep(text: string, s: string)
    requires s == SkipSpaces(text)
    ensures s == "" ==> ReadField(text) == ("", "")
    ensures s != "" && s[0] == '"' ==>
              var n := Span(s[1..], "\"");
              ReadField(text) == (s[1..][..n], if 1 + n < |s| then s[n + 2..] else "")
    ensures "NIL" <= s ==> ReadField(text) == ("", s[3..])
    ensures s != "" && s[0] == '(' ==> ReadField(text) == (FirstAddress(Content(s[1..])), s[1..][Group(s[1..], 1)..])
    ensures s != "" && s[0] != '"' && s[0] != '(' && !("NIL" <= s) ==> ReadField(text) == (s[..Span(s, " ")], s[Span(s, " ")..])
  {
  }

  lemma QuotedFieldAt(s: string, pos: nat, i: nat, j: nat)
    requires pos <= i < j <= |s| && s[i..] == SkipSpaces(s[pos..])
    requires s[i] == '"' && j == i + 1 + Span(s[i + 1..], "\"")
    ensures ReadField(s[pos..]) == (s[i + 1..j], s[Past(s, j)..])
  {
    hide SkipSpaces, Span, Group, FirstAddress, Content, ReadField;
    FieldStep(s[pos..], s[i..]);
    QuotedAt(s, i, j);
  }

  lemma GroupFieldAt(s: string, pos: nat, i: nat, j: nat)
    requires pos <= i < j <= |s| && s[i..] == SkipSpaces(s[pos..])
    requires s[i] == '(' && j == i + 1 + Group(s[i + 1..], 1)
    ensures ReadField(s[pos..]) == (FirstAddress(Content(s[i + 1..])), s[j..])
  {
    hide SkipSpaces, Span, Group, FirstAddress, Content, ReadField;
    FieldStep(s[pos..], s[i..]);
    assert s[i..][1..] == s[i + 1..];
    Suffix(s, i + 1, j);
  }

  lemma NilFieldAt(s: string, pos: nat, i: nat)
    requires pos <= i && i + 3 <= |s| && s[i..] == SkipSpaces(s[pos..]) && s[i..i + 3] == "NIL"
    ensures ReadField(s[pos..]) == ("", s[i + 3..])
  {
    hide SkipSpaces, Span, Group, FirstAddress, Content, ReadField;
    FieldStep(s[pos..], s[i..]);
    NilAt(s, i);
  }

  lemma AtomFieldAt(s: string, pos: nat, i: nat, j: nat)
    requires pos <= i < |s| && i <= j <= |s| && s[i..] == SkipSpaces(s[pos..])
    requires s[i] != '"' && s[i] != '(' && !(i + 3 <= |s| && s[i..i + 3] == "NIL") && j == i + Span(s[i..], " ")
    ensures ReadField(s[pos..]) == (s[i..j], s[j..])
  {
    hide SkipSpaces, Span, Group, FirstAddress, Content, ReadField;
    FieldStep(s[pos..], s[i..]);
    NilAt(s, i);
    Suffix(s, i, j);
  }

  lemma NoFieldAt(s: string, pos: nat)
    requires pos <= |s| && s[|s|..] == SkipSpaces(s[pos..])
    ensures ReadField(s[pos..]) == ("", s[|s|..])
  {
    hide SkipSpaces;
    FieldStep(s[pos..], s[|s|..]);
  }

  method ReadFieldAt(s: string, pos: nat) returns (value: string, next: nat)
    requires pos <= |s|
    ensures pos <= next <= |s| && (value, s[next..]) == ReadField(s[pos..])
  {
    hide ReadField, SkipSpaces, Span, Group, FirstAddress, Content;
    var i := SkipFrom(s, pos);
    if i == |s| {
      NoFieldAt(s, pos);
      return "", i;
    }
    if s[i] == '"' {
      var j := FindStop(s, i + 1, "\"");
      QuotedFieldAt(s, pos, i, j);
      return s[i + 1..j], Past(s, j);
    }
    if i + 3 <= |s| && s[i..i + 3] == "NIL" {
      NilFieldAt(s, pos, i);
      return "", i + 3;
    }
    if s[i] == '(' {
      var j := CloseGroup(s, i + 1);
      GroupFieldAt(s, pos, i, j);
      value := FormatFirstAddress(Inner(s, i + 1, j));
      return value, j;
    }
    var j := FindStop(s, i, " ");
    AtomFieldAt(s, pos, i, j);
    return s[i..j], j;
  }

  lemma OneFieldMore(text: string, n: nat, value: string, left: string)
    requires (value, left) == ReadField(ReadFields(text, n).1)
    ensures ReadFields(text, n + 1) == (ReadFields(text, n).0 + [value], left)
  {
  }

  lemma NoFields(text: string)
    ensures ReadFields(text, 0) == ([], text[0..])
  {
  }

  method ParseEnvelopeInline(text: string) returns (h: Headers)
    ensures h == EnvelopeOf(text)
  {
    hide ReadFields, ReadField;
    var fields: seq<string> := [];
    var pos := 0;
    NoFields(text);
    for n := 0 to 10
      invariant 0 <= pos <= |text| && |fields| == n && (fields, text[pos..]) == ReadFields(text, n)
    {
      var value: string;
      value, pos := ReadFieldAt(text, pos);
      OneFieldMore(text, n, value, text[pos..]);
      fields := fields + [value];
    }
    return Headers(fields[1], fields[2], fields[5], fields[0], fields[9]);
  }

  lemma KeyAt(text: string, m: Meta, i: nat, j: nat, k: nat)
    requires i < |text| && i <= j <= k <= |text| && text[i] != ' ' && text[i] != ')'
    requires j == i + Span(text[i..], " )") && text[k..] == SkipSpaces(text[j..])
    ensures i < j && Attributes(text[i..], m) == AfterKey(text[k..], Upper(text[i..j]), m)
  {
    hide SkipSpaces, Upper, AfterKey, Attributes, Span;
    var rest := text[i..];
    assert rest[0] == text[i];
    SpanMoves(text, i, " )");
    Suffix(text, i, j);
    AttributesAre(rest, m);
  }

  /** The part of a scan behind a key. */
  function AfterKey(s: string, key: string, m: Meta): Scan {
    if s == "" then Scanned(m)
    else if s[0] == '(' then Attributes(s[1..][Group(s[1..], 1)..], WithGroup(m, key, Content(s[1..])))
    else if s[0] == '"' then
      var k := Span(s[1..], "\"");
      Attributes(if 1 + k < |s| then s[k + 2..] else "", WithQuoted(m, key, s[1..][..k]))
    else
      var k := Span(s, " )");
      Attributes(s[k..], WithAtom(m, key, s[..k]))
  }

  lemma AttributesAre(text: string, m: Meta)
    requires text != "" && text[0] != ' ' && text[0] != ')'
    ensures var n := Span(text, " )");
            Attributes(text, m) == AfterKey(SkipSpaces(text[n..]), Upper(text[..n]), m)
  {
    hide SkipSpaces, Upper, Group, Content, WithGroup, WithQuoted, WithAtom;
  }

  lemma ValueAt(text: string, m: Meta, key: string, k: nat, j: nat)
    requires k <= j <= |text|
    ensures k == |text| ==> AfterKey(text[k..], key, m) == Scanned(m)
    ensures k < |text| && text[k] == '(' && k < j && j == k + 1 + Group(text[k + 1..], 1) ==>
              AfterKey(text[k..], key, m) == Attributes(text[j..], WithGroup(m, key, Content(text[k + 1..])))
    ensures k < |text| && text[k] == '"' && k < j && j == k + 1 + Span(text[k + 1..], "\"") ==>
              AfterKey(text[k..], key, m) == Attributes(text[Past(text, j)..], WithQuoted(m, key, text[k + 1..j]))
    ensures k < |text| && text[k] != '(' && text[k] != '"' && j == k + Span(text[k..], " )") ==>
              AfterKey(text[k..], key, m) == Attributes(text[j..], WithAtom(m, key, text[k..j]))
  {
    hide Attributes, Span, Group, Content, WithGroup, WithQuoted, WithAtom;
    if k < |text| {
      var s := text[k..];
      assert s[0] == text[k] && s[1..] == text[k + 1..];
      if text[k] == '"' && k < j && j == k + 1 + Span(text[k + 1..], "\"") { QuotedAt(text, k, j); }
      if k < j { Suffix(text, k + 1, j); }
      Suffix(text, k, j);
    }
  }

  lemma EdgeAt(text: string, m: Meta, i: nat)
    requires i <= |text|
    ensures i == |text| ==> Attributes(text[i..], m) == Scanned(m)
    ensures i < |text| && text[i] == ' ' ==> Attributes(text[i..], m) == Attributes(text[i + 1..], m)
    ensures i < |text| && text[i] == ')' ==> Attributes(text[i..], m) == Stuck
  {
    if i < |text| { assert text[i..][0] == text[i] && text[i..][1..] == text[i + 1..]; }
  }

  method ReadGroup(m: Meta, key: string, content: string) returns (r: Meta)
    ensures r == WithGroup(m, key, content)
  {
    if key == "FLAGS" { return m.(flags := Words(content)); }
    if key == "ENVELOPE" {
      var h := ParseEnvelopeInline(content);
      return m.(headers := h);
    }
    return m;
  }

  /** The scan of a line. Where the source would loop for ever the method says so instead. */
  method ParseInlineFetchAttrs(line: string) returns (r: Scan)
    ensures r == ScanLine(line)
  {
    var start := FindStop(line, 0, "(");
    assert line[0..] == line;
    FromThere(line);
    var text := line[start..];
    if |text| < 2 || text[|text| - 1] != ')' { return Unusable; }
    var inner := text[1..|text| - 1];
    r := ScanAttributes(inner);
  }

  method ScanAttributes(inner: string) returns (r: Scan)
    ensures r == Attributes(inner, BLANK)
  {
    hide *;
    var m, i := BLANK, 0;
    assert inner[0..] == inner;
    while i < |inner|
      invariant 0 <= i <= |inner| && Attributes(inner[i..], m) == Attributes(inner, BLANK)
      decreases |inner| - i
    {
      EdgeAt(inner, m, i);
      if inner[i] == ' ' {
        i := i + 1;
        continue;
      }
      if inner[i] == ')' { return Stuck; }
      var j := FindStop(inner, i, " )");
      var k := SkipFrom(inner, j);
      KeyAt(inner, m, i, j, k);
      var key := Upper(inner[i..j]);
      ValueAt(inner, m, key, k, k);
      if k == |inner| { return Scanned(m); }
      if inner[k] == '(' {
        i := CloseGroup(inner, k + 1);
        ValueAt(inner, m, key, k, i);
        m := ReadGroup(m, key, Inner(inner, k + 1, i));
      } else if inner[k] == '"' {
        j := FindStop(inner, k + 1, "\"");
        ValueAt(inner, m, key, k, j);
        m := WithQuoted(m, key, inner[k + 1..j]);
        i := Past(inner, j);
      } else {
        i := FindStop(inner, k, " )");
        ValueAt(inner, m, key, k, i);
        m := WithAtom(m, key, inner[k..i]);
      }
    }
    EdgeAt(inner, m, i);
    return Scanned(m);
  }

  lemma {:induction false} FromThere(line: string)
    ensures FromParenthesis(line) == line[Span(line, "(")..]
  {
    if line != "" && line[0] != '(' { FromThere(line[1..]); }
  }
}
