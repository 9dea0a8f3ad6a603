/**
 What a server prints for FLAGS, INTERNALDATE, RFC822.SIZE and ENVELOPE (section 7.4.2 of RFC 3501),
 and what the scanner of FetchScanner makes of it.
 */
module FetchPrinter {
  import opened Outcome
  import opened Text
  import opened Decimal
  import opened FetchPairing
  import opened FetchScanner

  // ---------- printing ----------

  /** Quotes and backslashes inside a quoted string are escaped. */
  function Escaped(v: string): string {
    if v == "" then ""
    else (if v[0] == '"' || v[0] == '\\' then ['\\', v[0]] else [v[0]]) + Escaped(v[1..])
  }

  function Quoted(v: string): string {
    "\"" + Escaped(v) + "\""
  }

  type NString = Option<string>

  function Nullable(v: NString): string {
    match v
    case None => "NIL"
    case Some(t) => Quoted(t)
  }

  function Plain(v: NString): string {
    match v
    case None => ""
    case Some(t) => t
  }

  datatype Address = Address(personal: NString, route: NString, mailbox: NString, host: NString)

  function Inside(a: Address): string {
    Nullable(a.personal) + " " + Nullable(a.route) + " " + Nullable(a.mailbox) + " " + Nullable(a.host)
  }

  function Listed(addresses: seq<Address>): string {
    if addresses == [] then "" else "(" + Inside(addresses[0]) + ")" + Listed(addresses[1..])
  }

  /** A field of an envelope: a string or a list of addresses, each possibly NIL. */
  datatype Field = Text(value: NString) | Addresses(first: Address, more: seq<Address>)

  function Shown(f: Field): string {
    match f
    case Text(v) => Nullable(v)
    case Addresses(first, more) => "(" + Listed([first] + more) + ")"
  }

  /** The fields in order, a space between them. */
  function Sequence(fields: seq<Field>): string {
    if fields == [] then ""
    else if |fields| == 1 then Shown(fields[0])
    else Sequence(fields[..|fields| - 1]) + " " + Shown(fields[|fields| - 1])
  }

  function Spaced(words: seq<string>): string {
    if words == [] then ""
    else if |words| == 1 then words[0]
    else words[0] + " " + Spaced(words[1..])
  }

  datatype Attribute =
    | Uid(uid: nat)
    | Flags(flags: seq<string>)
    | InternalDate(date: string)
    | Size(size: nat)
    | Envelope(fields: seq<Field>)

  function Attr(a: Attribute): string {
    match a
    case Uid(uid) => "UID " + Print(uid)
    case Flags(flags) => "FLAGS (" + Spaced(flags) + ")"
    case InternalDate(date) => "INTERNALDATE " + Quoted(date)
    case Size(size) => "RFC822.SIZE " + Print(size)
    case Envelope(fields) => "ENVELOPE (" + Sequence(fields) + ")"
  }

  function Attrs(attributes: seq<Attribute>): string {
    if attributes == [] then ""
    else if |attributes| == 1 then Attr(attributes[0])
    else Attr(attributes[0]) + " " + Attrs(attributes[1..])
  }

  function FetchLine(number: nat, attributes: seq<Attribute>): string {
    Print(number) + " (" + Attrs(attributes) + ")"
  }

  // ---------- what the line means ----------

  function ShortAddress(a: Address): string {
    if Plain(a.personal) != "" then Plain(a.personal) + " <" + Plain(a.mailbox) + "@" + Plain(a.host) + ">"
    else if Plain(a.mailbox) != "" && Plain(a.host) != "" then Plain(a.mailbox) + "@" + Plain(a.host)
    else ""
  }

  function Meaning(f: Field): string {
    match f
    case Text(v) => Plain(v)
    case Addresses(first, _) => ShortAddress(first)
  }

  function Taken(m: Meta, a: Attribute): Meta
    requires a.Envelope? ==> |a.fields| == 10
  {
    match a
    case Uid(_) => m
    case Flags(flags) => m.(flags := flags)
    case InternalDate(date) =>
      m.(internalDate := date, headers := if m.headers.date == "" then m.headers.(date := date) else m.headers)
    case Size(size) => m.(size := size)
    case Envelope(f) => m.(headers := Headers(Meaning(f[1]), Meaning(f[2]), Meaning(f[5]), Meaning(f[0]), Meaning(f[9])))
  }

  function AllTaken(m: Meta, attributes: seq<Attribute>): Meta
    requires forall a <- attributes :: a.Envelope? ==> |a.fields| == 10
    decreases |attributes|
  {
    if attributes == [] then m else AllTaken(Taken(m, attributes[0]), attributes[1..])
  }

  // ---------- which strings survive ----------

  /** How deep in parentheses the text ends, starting at `depth`; nothing if it closes them all before. */
  function Level(text: string, depth: nat): Option<nat> {
    if depth == 0 then None
    else if text == "" then Some(depth)
    else Level(text[1..], if text[0] == '(' then depth + 1 else if text[0] == ')' then depth - 1 else depth)
  }

  /** Any parentheses inside match. */
  ghost predicate Matched(text: string) {
    Level(text, 1) == Some(1)
  }

  ghost predicate Survives(v: string) {
    '"' !in v && '\\' !in v && Matched(v)
  }

  ghost predicate NSurvives(v: NString) {
    v.Some? ==> Survives(v.value)
  }

  ghost predicate AddressSurvives(a: Address) {
    NSurvives(a.personal) && NSurvives(a.route) && NSurvives(a.mailbox) && NSurvives(a.host)
  }

  ghost predicate FieldSurvives(f: Field) {
    match f
    case Text(v) => NSurvives(v)
    case Addresses(first, more) => AddressSurvives(first) && forall a <- more :: AddressSurvives(a)
  }

  ghost predicate AttributeSurvives(a: Attribute) {
    match a
    case Flags(flags) => forall w <- flags :: IsWord(w)
    case InternalDate(date) => '"' !in date && '\\' !in date
    case Envelope(fields) => |fields| == 10 && forall f <- fields :: FieldSurvives(f)
    case _ => true
  }

  // ---------- groups ----------

  lemma {:induction false} LevelJoins(a: string, b: string, depth: nat)
    ensures Level(a + b, depth) == (if Level(a, depth).None? then None else Level(b, Level(a, depth).value))
  {
    if a == "" {
      assert a + b == b;
    } else {
      assert (a + b)[0] == a[0] && (a + b)[1..] == a[1..] + b;
      if depth > 0 { LevelJoins(a[1..], b, if a[0] == '(' then depth + 1 else if a[0] == ')' then depth - 1 else depth); }
    }
  }

  /** Text that closes nothing from one level closes nothing from a deeper one. */
  lemma {:induction false} LevelShifts(text: string, depth: nat, more: nat)
    requires Level(text, depth).Some?
    ensures Level(text, depth + more) == Some(Level(text, depth).value + more)
  {
    if text != "" {
      LevelShifts(text[1..], if text[0] == '(' then depth + 1 else if text[0] == ')' then depth - 1 else depth, more);
    }
  }

  /** Main result: a group is read back whole exactly when the parentheses in its content match; the only
      other way is that they stay open and nothing follows. */
  lemma GroupReadIff(content: string, tail: string)
    ensures Group(content + ")" + tail, 1) == |content| + 1 <==>
            Matched(content) || (tail == "" && Level(content, 1).Some?)
  {
    GroupReads(content, tail, 1);
  }

  lemma {:induction false} GroupReads(content: string, tail: string, depth: nat)
    requires depth > 0
    ensures Group(content + ")" + tail, depth) == |content| + 1 <==>
            Level(content, depth) == Some(1) || (tail == "" && Level(content, depth).Some?)
    ensures Level(content, depth).None? ==> Group(content + ")" + tail, depth) <= |content|
  {
    var text := content + ")" + tail;
    if content == "" {
      assert text[0] == ')' && text[1..] == tail;
    } else {
      var next := if content[0] == '(' then depth + 1 else if content[0] == ')' then depth - 1 else depth;
      assert text[0] == content[0] && text[1..] == content[1..] + ")" + tail;
      if next > 0 { GroupReads(content[1..], tail, next); }
    }
  }

  lemma ContentRead(content: string, tail: string)
    requires Matched(content)
    ensures Content(content + ")" + tail) == content
    ensures (content + ")" + tail)[Group(content + ")" + tail, 1)..] == tail
  {
    GroupReadIff(content, tail);
    var text := content + ")" + tail;
    hide Group;
    assert text[..|content|] == content && text[|content| + 1..] == tail;
  }

  lemma MatchedJoin(a: string, b: string)
    requires Matched(a) && Matched(b)
    ensures Matched(a + b)
  {
    LevelJoins(a, b, 1);
  }

  lemma MatchedGroup(a: string)
    requires Matched(a)
    ensures Matched("(" + a + ")")
  {
    LevelShifts(a, 1, 1);
    LevelJoins("(", a, 1);
    assert Level("(", 1) == Some(2) by { assert "("[1..] == ""; }
    LevelJoins("(" + a, ")", 1);
    assert Level(")", 2) == Some(1) by { assert ")"[1..] == ""; }
  }

  lemma {:induction false} MatchedWithout(text: string)
    requires '(' !in text && ')' !in text
    ensures Matched(text)
  {
    if text != "" {
      assert text[0] in text && forall c <- text[1..] :: c in text;
      MatchedWithout(text[1..]);
    }
  }

  lemma {:induction false} EscapedIs(v: string)
    requires '"' !in v && '\\' !in v
    ensures Escaped(v) == v
  {
    if v != "" {
      assert v[0] in v && forall c <- v[1..] :: c in v;
      EscapedIs(v[1..]);
    }
  }

  lemma QuotedMatched(v: string)
    requires Survives(v)
    ensures Quoted(v) == "\"" + v + "\"" && Matched(Quoted(v))
  {
    EscapedIs(v);
    MatchedWithout("\"");
    MatchedJoin("\"", v);
    MatchedJoin("\"" + v, "\"");
  }

  lemma NullableMatched(v: NString)
    requires NSurvives(v)
    ensures Matched(Nullable(v))
  {
    if v.Some? { QuotedMatched(v.value); } else { MatchedWithout("NIL"); }
  }

  lemma InsideMatched(a: Address)
    requires AddressSurvives(a)
    ensures Matched(Inside(a))
  {
    hide Matched, Nullable;
    NullableMatched(a.personal);
    NullableMatched(a.route);
    NullableMatched(a.mailbox);
    NullableMatched(a.host);
    MatchedWithout(" ");
    MatchedJoin(Nullable(a.personal), " ");
    MatchedJoin(Nullable(a.personal) + " ", Nullable(a.route));
    MatchedJoin(Nullable(a.personal) + " " + Nullable(a.route), " ");
    MatchedJoin(Nullable(a.personal) + " " + Nullable(a.route) + " ", Nullable(a.mailbox));
    MatchedJoin(Nullable(a.personal) + " " + Nullable(a.route) + " " + Nullable(a.mailbox), " ");
    MatchedJoin(Nullable(a.personal) + " " + Nullable(a.route) + " " + Nullable(a.mailbox) + " ", Nullable(a.host));
  }

  lemma {:induction false} ListedMatched(addresses: seq<Address>)
    requires forall a <- addresses :: AddressSurvives(a)
    ensures Matched(Listed(addresses))
  {
    if addresses != [] {
      hide Matched;
      InsideMatched(addresses[0]);
      MatchedGroup(Inside(addresses[0]));
      ListedMatched(addresses[1..]);
      MatchedJoin("(" + Inside(addresses[0]) + ")", Listed(addresses[1..]));
    } else {
      MatchedWithout("");
    }
  }

  lemma ShownMatched(f: Field)
    requires FieldSurvives(f)
    ensures Matched(Shown(f))
  {
    match f
    case Text(v) => NullableMatched(v);
    case Addresses(first, more) =>
      ListedMatched([first] + more);
      MatchedGroup(Listed([first] + more));
  }

  lemma {:induction false} SequenceMatched(fields: seq<Field>)
    requires forall f <- fields :: FieldSurvives(f)
    ensures Matched(Sequence(fields))
  {
    if fields == [] {
      MatchedWithout("");
    } else {
      var n := |fields| - 1;
      assert fields[n] in fields;
      ShownMatched(fields[n]);
      if n > 0 {
        SequenceMatched(fields[..n]);
        MatchedWithout(" ");
        MatchedJoin(Sequence(fields[..n]), " ");
        MatchedJoin(Sequence(fields[..n]) + " ", Shown(fields[n]));
      }
    }
  }

  // ---------- strings and addresses read back ----------

  /** A quoted string without quotes inside ends where it was printed to end. */
  lemma QuotedEnds(v: string, tail: string)
    requires '"' !in v
    ensures var text := v + "\"" + tail;
            var n := Span(text, "\"");
            n == |v| && text[..n] == v && text[n + 1..] == tail
  {
    SpanIs(v + "\"" + tail, "\"", |v|);
  }

  lemma QuotedPart(t: string, tail: string)
    requires '"' !in t
    ensures Parts("\"" + t + "\"" + tail) == [t] + Parts(tail)
  {
    hide Parts, Span;
    var rest := t + "\"" + tail;
    var text := "\"" + t + "\"" + tail;
    assert text[1..] == rest && text[0..] == text;
    QuotedEnds(t, tail);
    assert text[1..|t| + 1] == rest[..|t|] && text[|t| + 2..] == rest[|t| + 1..];
    PartsAt(text, 0, |t| + 1);
  }

  lemma NilPart(tail: string)
    ensures Parts("NIL" + tail) == [""] + Parts(tail)
  {
    hide Parts;
    var text := "NIL" + tail;
    assert text[0..] == text && text[0..3] == "NIL" && text[3..] == tail;
    PartsAt(text, 0, 0);
  }

  lemma PartRead(v: NString, tail: string)
    requires NSurvives(v)
    ensures Parts(Nullable(v) + tail) == [Plain(v)] + Parts(tail)
  {
    hide Parts;
    match v {
      case None => NilPart(tail);
      case Some(t) =>
        EscapedIs(t);
        QuotedPart(t, tail);
    }
  }

  lemma SpacedPartRead(v: NString, tail: string)
    requires NSurvives(v)
    ensures Parts(" " + Nullable(v) + tail) == [Plain(v)] + Parts(tail)
  {
    var text := " " + Nullable(v) + tail;
    assert text[1..] == Nullable(v) + tail;
    PartRead(v, tail);
  }

  lemma AddressRead(a: Address)
    requires AddressSurvives(a)
    ensures Formatted(Parts(Inside(a))) == ShortAddress(a)
  {
    hide Nullable, Parts;
    var d := " " + Nullable(a.host);
    var c := " " + Nullable(a.mailbox) + d;
    var b := " " + Nullable(a.route) + c;
    assert Inside(a) == Nullable(a.personal) + b;
    assert d == " " + Nullable(a.host) + "";
    PartRead(a.personal, b);
    SpacedPartRead(a.route, c);
    SpacedPartRead(a.mailbox, d);
    SpacedPartRead(a.host, "");
    NoPartsLeft();
    assert Parts(Inside(a)) == [Plain(a.personal), Plain(a.route), Plain(a.mailbox), Plain(a.host)];
  }

  lemma NoPartsLeft()
    ensures Parts("") == []
  {
  }

  lemma {:induction false} ListedEnds(addresses: seq<Address>)
    requires addresses != []
    ensures var text := Listed(addresses); |text| >= 2 && text[0] == '(' && text[|text| - 1] == ')'
  {
    if |addresses| > 1 { ListedEnds(addresses[1..]); }
  }

  lemma FirstRead(first: Address, more: seq<Address>)
    requires AddressSurvives(first)
    ensures FirstAddress(Listed([first] + more)) == ShortAddress(first)
  {
    hide Parts, Formatted, Group, Content, Inside;
    var text := Listed([first] + more);
    ListedEnds([first] + more);
    assert ([first] + more)[1..] == more;
    assert text == "(" + Inside(first) + ")" + Listed(more);
    assert text[1..] == Inside(first) + ")" + Listed(more);
    InsideMatched(first);
    ContentRead(Inside(first), Listed(more));
    AddressRead(first);
    assert Strip(text) == text;
  }

  // ---------- fields and envelopes read back ----------

  lemma QuotedText(t: string, tail: string)
    requires '"' !in t
    ensures ReadField("\"" + t + "\"" + tail) == (t, tail)
  {
    hide ReadField, Span;
    var rest := t + "\"" + tail;
    var text := "\"" + t + "\"" + tail;
    assert text[1..] == rest && text[0..] == text;
    QuotedEnds(t, tail);
    assert text[1..|t| + 1] == rest[..|t|] && text[|t| + 2..] == rest[|t| + 1..];
    QuotedFieldAt(text, 0, 0, |t| + 1);
  }

  lemma NilText(tail: string)
    ensures ReadField("NIL" + tail) == ("", tail)
  {
    hide ReadField;
    var text := "NIL" + tail;
    assert text[0..] == text && text[0..3] == "NIL" && text[3..] == tail;
    NilFieldAt(text, 0, 0);
  }

  lemma TextRead(v: NString, tail: string)
    requires NSurvives(v)
    ensures ReadField(Nullable(v) + tail) == (Plain(v), tail)
  {
    hide ReadField;
    match v {
      case None => NilText(tail);
      case Some(t) =>
        EscapedIs(t);
        QuotedText(t, tail);
    }
  }

  lemma AddressesRead(first: Address, more: seq<Address>, tail: string)
    requires AddressSurvives(first) && forall a <- more :: AddressSurvives(a)
    ensures ReadField("(" + Listed([first] + more) + ")" + tail) == (ShortAddress(first), tail)
  {
    hide Listed, FirstAddress, Group, Content, Matched;
    var list := Listed([first] + more);
    var text := "(" + list + ")" + tail;
    assert text[1..] == list + ")" + tail;
    ListedMatched([first] + more);
    ContentRead(list, tail);
    FirstRead(first, more);
  }

  lemma FieldRead(f: Field, tail: string)
    requires FieldSurvives(f)
    ensures ReadField(Shown(f) + tail) == (Meaning(f), tail)
    ensures ReadField(" " + Shown(f) + tail) == (Meaning(f), tail)
  {
    match f {
      case Text(v) => TextRead(v, tail);
      case Addresses(first, more) =>
        AddressesRead(first, more, tail);
        assert Shown(f) + tail == "(" + Listed([first] + more) + ")" + tail;
    }
    hide Shown, Meaning;
    SpaceSkipped(Shown(f) + tail);
    assert " " + Shown(f) + tail == " " + (Shown(f) + tail);
  }

  lemma SpaceSkipped(text: string)
    ensures ReadField(" " + text) == ReadField(text)
  {
    assert (" " + text)[1..] == text;
  }

  function Meanings(fields: seq<Field>): seq<string> {
    seq(|fields|, i requires 0 <= i < |fields| => Meaning(fields[i]))
  }

  lemma {:induction false} SequenceRead(fields: seq<Field>, tail: string)
    requires forall f <- fields :: FieldSurvives(f)
    ensures ReadFields(Sequence(fields) + tail, |fields|) == (Meanings(fields), tail)
    decreases |fields|
  {
    hide ReadField, Shown, Meaning, FieldSurvives;
    if fields == [] {
      assert Sequence(fields) + tail == tail;
    } else {
      var n := |fields| - 1;
      var f, before := fields[n], fields[..n];
      assert f in fields;
      FieldRead(f, tail);
      if n == 0 {
        assert ReadFields(Shown(f) + tail, 0) == ([], Shown(f) + tail);
      } else {
        SequenceRead(before, " " + Shown(f) + tail);
        assert Sequence(fields) + tail == Sequence(before) + (" " + Shown(f) + tail);
      }
      assert Meanings(fields) == Meanings(before) + [Meaning(f)];
    }
  }

  lemma EnvelopeRead(fields: seq<Field>)
    requires |fields| == 10 && forall f <- fields :: FieldSurvives(f)
    ensures EnvelopeOf(Sequence(fields)) ==
            Headers(Meaning(fields[1]), Meaning(fields[2]), Meaning(fields[5]), Meaning(fields[0]), Meaning(fields[9]))
  {
    hide ReadFields, Sequence, Meaning;
    SequenceRead(fields, "");
    assert Sequence(fields) + "" == Sequence(fields);
  }

  // ---------- attributes read back ----------

  lemma {:induction false} WordEnds(word: string, tail: string)
    requires (forall c <- word :: !IsSpace(c)) && (tail == "" || IsSpace(tail[0]))
    ensures WordLength(word + tail) == |word|
  {
    if word == "" {
      assert word + tail == tail;
    } else {
      assert word[0] in word && (word + tail)[0] == word[0] && (word + tail)[1..] == word[1..] + tail;
      assert forall c <- word[1..] :: c in word;
      WordEnds(word[1..], tail);
    }
  }

  ghost predicate IsWord(w: string) {
    w != "" && forall c <- w :: !IsSpace(c) && c != '(' && c != ')'
  }

  lemma {:induction false} WordsRead(words: seq<string>)
    requires forall w <- words :: IsWord(w)
    ensures Words(Spaced(words)) == words && Matched(Spaced(words))
    decreases |words|
  {
    hide Matched;
    if words == [] {
      MatchedWithout("");
    } else {
      var w := words[0];
      assert IsWord(w) && w[0] in w;
      MatchedWithout(w);
      if |words| == 1 {
        assert w + "" == w;
        WordEnds(w, "");
        assert w[|w|..] == "";
      } else {
        var rest := Spaced(words[1..]);
        WordsRead(words[1..]);
        WordEnds(w, " " + rest);
        var text := w + " " + rest;
        assert text == w + (" " + rest) && text[|w|..] == " " + rest && (" " + rest)[1..] == rest && text[..|w|] == w;
        MatchedWithout(" ");
        MatchedJoin(w, " ");
        MatchedJoin(w + " ", rest);
        assert Words(text) == [w] + Words(" " + rest);
        assert Words(" " + rest) == Words(rest);
      }
    }
  }

  ghost predicate IsKey(key: string) {
    key != "" && forall c <- key :: c != ' ' && c != ')' && !('a' <= c <= 'z')
  }

  lemma KeyRead(key: string, value: string, m: Meta)
    requires IsKey(key) && value != "" && value[0] != ' '
    ensures Attributes(key + " " + value, m) == AfterKey(value, key, m)
  {
    var text := key + " " + value;
    assert key[0] in key && text[0] == key[0];
    assert forall i :: 0 <= i < |key| ==> text[i] == key[i] && key[i] in key;
    SpanIs(text, " )", |key|);
    assert text[..|key|] == key && text[|key|..] == " " + value && (" " + value)[1..] == value;
    assert Upper(key) == key by {
      assert forall i :: 0 <= i < |key| ==> key[i] in key;
    }
    assert SkipSpaces(" " + value) == value;
    hide Span, AfterKey, SkipSpaces, Upper;
    AttributesAre(text, m);
  }

  lemma GroupAttribute(key: string, content: string, tail: string, m: Meta)
    requires IsKey(key) && Matched(content)
    ensures Attributes(key + " (" + content + ")" + tail, m) == Attributes(tail, WithGroup(m, key, content))
  {
    hide WithGroup, Group, Content, Matched, Attributes;
    var value := "(" + content + ")" + tail;
    assert key + " (" + content + ")" + tail == key + " " + value;
    KeyRead(key, value, m);
    assert value[0] == '(' && value[1..] == content + ")" + tail;
    ContentRead(content, tail);
  }

  lemma QuotedAttribute(key: string, v: string, tail: string, m: Meta)
    requires IsKey(key) && '"' !in v
    ensures Attributes(key + " \"" + v + "\"" + tail, m) == Attributes(tail, WithQuoted(m, key, v))
  {
    hide WithQuoted, Attributes;
    var rest := v + "\"" + tail;
    var value := "\"" + rest;
    assert key + " \"" + v + "\"" + tail == key + " " + value;
    KeyRead(key, value, m);
    assert value[0] == '"' && value[1..] == rest;
    QuotedEnds(v, tail);
    assert value[|v| + 2..] == rest[|v| + 1..];
  }

  lemma AtomAttribute(key: string, atom: string, tail: string, m: Meta)
    requires IsKey(key) && AllDigits(atom) && atom != "" && (tail == "" || tail[0] == ' ')
    ensures Attributes(key + " " + atom + tail, m) == Attributes(tail, WithAtom(m, key, atom))
  {
    hide WithAtom, Attributes;
    var value := atom + tail;
    assert key + " " + atom + tail == key + " " + value;
    assert IsDigit(value[0]);
    KeyRead(key, value, m);
    SpanIs(value, " )", |atom|);
    assert value[..|atom|] == atom && value[|atom|..] == tail;
  }

  lemma UidRead(n: nat, tail: string, m: Meta)
    requires tail == "" || tail[0] == ' '
    ensures Attributes("UID " + Print(n) + tail, m) == Attributes(tail, m)
  {
    hide Attributes, Print, Parse, AllDigits;
    AtomAttribute("UID", Print(n), tail, m);
    assert "UID" + " " == "UID ";
  }

  lemma SizeRead(n: nat, tail: string, m: Meta)
    requires tail == "" || tail[0] == ' '
    ensures Attributes("RFC822.SIZE " + Print(n) + tail, m) == Attributes(tail, m.(size := n))
  {
    hide Attributes, Print, Parse, AllDigits;
    AtomAttribute("RFC822.SIZE", Print(n), tail, m);
    assert "RFC822.SIZE" + " " == "RFC822.SIZE ";
    ParsePrint(n);
  }

  lemma FlagsRead(flags: seq<string>, tail: string, m: Meta)
    requires forall w <- flags :: IsWord(w)
    ensures Attributes("FLAGS (" + Spaced(flags) + ")" + tail, m) == Attributes(tail, m.(flags := flags))
  {
    hide Attributes, Matched, Spaced, Words;
    WordsRead(flags);
    GroupAttribute("FLAGS", Spaced(flags), tail, m);
    assert "FLAGS" + " (" == "FLAGS (";
  }

  lemma EnvelopeAttributeRead(fields: seq<Field>, tail: string, m: Meta)
    requires |fields| == 10 && forall f <- fields :: FieldSurvives(f)
    ensures Attributes("ENVELOPE (" + Sequence(fields) + ")" + tail, m) == Attributes(tail, Taken(m, Envelope(fields)))
  {
    hide Attributes, Matched, Sequence, EnvelopeOf, FieldSurvives, Meaning;
    SequenceMatched(fields);
    GroupAttribute("ENVELOPE", Sequence(fields), tail, m);
    assert "ENVELOPE" + " (" == "ENVELOPE (";
    EnvelopeRead(fields);
  }

  lemma DateRead(date: string, tail: string, m: Meta)
    requires '"' !in date && '\\' !in date
    ensures Attributes("INTERNALDATE " + Quoted(date) + tail, m) == Attributes(tail, Taken(m, InternalDate(date)))
  {
    hide Attributes;
    EscapedIs(date);
    QuotedAttribute("INTERNALDATE", date, tail, m);
    assert "INTERNALDATE " + ("\"" + date + "\"") + tail == "INTERNALDATE" + " \"" + date + "\"" + tail;
  }

  lemma AttributeRead(a: Attribute, tail: string, m: Meta)
    requires AttributeSurvives(a) && (tail == "" || tail[0] == ' ')
    ensures Attributes(Attr(a) + tail, m) == Attributes(tail, Taken(m, a))
  {
    hide Attributes, Matched, Sequence, Spaced, Print, Meaning, FieldSurvives, IsWord, AllDigits, Quoted;
    match a {
      case Uid(uid) => UidRead(uid, tail, m);
      case Flags(flags) => FlagsRead(flags, tail, m);
      case InternalDate(date) => DateRead(date, tail, m);
      case Size(size) => SizeRead(size, tail, m);
      case Envelope(fields) => EnvelopeAttributeRead(fields, tail, m);
    }
  }

  lemma {:induction false} AttributesRead(attributes: seq<Attribute>, m: Meta)
    requires forall a <- attributes :: AttributeSurvives(a)
    ensures forall a <- attributes :: a.Envelope? ==> |a.fields| == 10
    ensures Attributes(Attrs(attributes), m) == Scanned(AllTaken(m, attributes))
    decreases |attributes|
  {
    hide Attr, Taken, AttributeSurvives;
    assert forall a <- attributes :: a.Envelope? ==> |a.fields| == 10 by { TenFields(attributes); }
    if attributes != [] {
      var a, rest := attributes[0], attributes[1..];
      if rest == [] {
        AttributeRead(a, "", m);
        assert Attr(a) + "" == Attr(a);
      } else {
        var tail := " " + Attrs(rest);
        AttributeRead(a, tail, m);
        assert Attr(a) + " " + Attrs(rest) == Attr(a) + tail;
        assert tail[1..] == Attrs(rest) && Attributes(tail, Taken(m, a)) == Attributes(Attrs(rest), Taken(m, a));
        AttributesRead(rest, Taken(m, a));
      }
    }
  }

  lemma TenFields(attributes: seq<Attribute>)
    requires forall a <- attributes :: AttributeSurvives(a)
    ensures forall a <- attributes :: a.Envelope? ==> |a.fields| == 10
  {
    forall a <- attributes | a.Envelope? ensures |a.fields| == 10 {
      assert AttributeSurvives(a);
    }
  }

  lemma {:induction false} NumberSkipped(number: string, rest: string)
    requires '(' !in number
    ensures FromParenthesis(number + "(" + rest) == "(" + rest
  {
    var text := number + "(" + rest;
    if number == "" {
      assert text == "(" + rest;
    } else {
      assert number[0] in number && text[0] == number[0] && text[1..] == number[1..] + "(" + rest;
      NumberSkipped(number[1..], rest);
    }
  }

  /** Main result: what a server prints for any attributes in any order is read back exactly, as long as
      its strings hold no quote or backslash and their parentheses match. */
  lemma LineReadsBack(number: nat, attributes: seq<Attribute>)
    requires forall a <- attributes :: AttributeSurvives(a)
    ensures forall a <- attributes :: a.Envelope? ==> |a.fields| == 10
    ensures ScanLine(FetchLine(number, attributes)) == Scanned(AllTaken(BLANK, attributes))
  {
    AttributesRead(attributes, BLANK);
    hide Attrs, Print, ScanLine;
    LineOf(Print(number), Attrs(attributes));
  }

  /** With the identifier first and anything behind it, the same line also yields the identifier. */
  lemma UidReadsBack(number: nat, uid: nat, more: seq<Attribute>)
    requires more != []
    ensures UidInHeader(FetchLine(number, [Uid(uid)] + more)) == Some(uid)
  {
    hide Print, Parse, UidInHeader;
    assert ([Uid(uid)] + more)[1..] == more;
    assert FetchLine(number, [Uid(uid)] + more) == Print(number) + " (UID " + Print(uid) + " " + (Attrs(more) + ")");
    NumberRead(Print(number), Print(uid), Attrs(more) + ")");
    ParsePrint(uid);
  }

  lemma LineOf(number: string, inner: string)
    requires AllDigits(number)
    ensures ScanLine(number + " (" + inner + ")") == Attributes(inner, BLANK)
  {
    hide Attributes;
    assert forall c <- number + " " :: c != '(';
    NumberSkipped(number + " ", inner + ")");
    assert number + " (" + inner + ")" == number + " " + "(" + (inner + ")");
    var text := "(" + (inner + ")");
    assert text[|text| - 1] == ')' && text[1..|text| - 1] == inner;
  }
}
