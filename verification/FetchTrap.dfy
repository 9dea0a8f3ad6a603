/**
 When the attribute scan of imap/_parsing.py lines 38-127 never ends, and which ENVELOPEs make it so.
 */
module FetchTrap {
  import opened Outcome
  import opened Decimal
  import opened FetchScanner
  import opened FetchPrinter

  ghost predicate Sticks(text: string) {
    Attributes(text, BLANK) == Stuck
  }

  /** What was read so far does not matter for that. */
  lemma {:induction false} MetaIrrelevant(text: string, m: Meta, k: Meta)
    ensures Attributes(text, m) == Stuck <==> Attributes(text, k) == Stuck
    decreases |text|
  {
    hide Attributes, Span, SkipSpaces, Upper, Group, Content, WithGroup, WithQuoted, WithAtom;
    if text == "" || text[0] == ' ' || text[0] == ')' {
      SimpleSteps(text, m);
      SimpleSteps(text, k);
      if text != "" && text[0] == ' ' { MetaIrrelevant(text[1..], m, k); }
    } else {
      AttributesAre(text, m);
      AttributesAre(text, k);
      KeyMoves(text);
      var n := Span(text, " )");
      AfterIrrelevant(SkipSpaces(text[n..]), Upper(text[..n]), m, k);
    }
  }

  lemma SimpleSteps(text: string, m: Meta)
    ensures text == "" ==> Attributes(text, m) == Scanned(m)
    ensures text != "" && text[0] == ' ' ==> Attributes(text, m) == Attributes(text[1..], m)
    ensures text != "" && text[0] == ')' ==> Attributes(text, m) == Stuck
  {
  }

  lemma KeyMoves(text: string)
    requires text != "" && text[0] != ' ' && text[0] != ')'
    ensures 0 < Span(text, " )") <= |text| && |SkipSpaces(text[Span(text, " )")..])| < |text|
  {
  }

  lemma {:induction false} AfterIrrelevant(s: string, key: string, m: Meta, k: Meta)
    ensures AfterKey(s, key, m) == Stuck <==> AfterKey(s, key, k) == Stuck
    decreases |s|
  {
    hide Attributes, WithGroup, WithQuoted, WithAtom;
    if s != "" {
      if s[0] == '(' {
        MetaIrrelevant(s[1..][Group(s[1..], 1)..], WithGroup(m, key, Content(s[1..])), WithGroup(k, key, Content(s[1..])));
      } else if s[0] == '"' {
        var n := Span(s[1..], "\"");
        MetaIrrelevant(if 1 + n < |s| then s[n + 2..] else "", WithQuoted(m, key, s[1..][..n]), WithQuoted(k, key, s[1..][..n]));
      } else {
        var n := Span(s, " )");
        if n == 0 {
          SimpleSteps(s, WithAtom(m, key, s[..n]));
          SimpleSteps(s, WithAtom(k, key, s[..n]));
          assert s[n..] == s;
          if s[0] == ' ' { MetaIrrelevant(s[1..], WithAtom(m, key, s[..n]), WithAtom(k, key, s[..n])); }
        } else {
          MetaIrrelevant(s[n..], WithAtom(m, key, s[..n]), WithAtom(k, key, s[..n]));
        }
      }
    }
  }

  // ---------- a grammar of what is read before ----------

  /** What the scan reads in one go: a space, or a key and its value. */
  datatype Item = Blank | Pair(key: string, gap: nat, value: string)

  function Spaces(n: nat): string {
    if n == 0 then "" else " " + Spaces(n - 1)
  }

  function Form(i: Item): string {
    match i
    case Blank => " "
    case Pair(key, gap, value) => key + Spaces(gap) + value
  }

  ghost predicate NoStops(text: string) {
    ' ' !in text && ')' !in text
  }

  ghost predicate Grouped(value: string) {
    exists content :: value == "(" + content + ")" && Matched(content)
  }

  ghost predicate QuotedValue(value: string) {
    exists v :: value == "\"" + v + "\"" && '"' !in v
  }

  ghost predicate Bare(value: string) {
    value != "" && NoStops(value) && value[0] != '(' && value[0] != '"'
  }

  /** The item is complete when `next` follows it. */
  ghost predicate Shaped(i: Item, next: string) {
    match i
    case Blank => true
    case Pair(key, gap, value) =>
      && key != "" && NoStops(key) && gap > 0
      && (Grouped(value) || QuotedValue(value) || (Bare(value) && next != "" && (next[0] == ' ' || next[0] == ')')))
  }

  /** A closing parenthesis where a key or a value should be. */
  ghost predicate DeadEnd(text: string) {
    exists key, gap, rest :: NoStops(key) && text == key + Spaces(gap) + ")" + rest
  }

  /** The text is these items and then a dead end. */
  ghost predicate Leads(items: seq<Item>, text: string)
    decreases |items|
  {
    if items == [] then DeadEnd(text)
    else
      && Form(items[0]) <= text && Shaped(items[0], text[|Form(items[0])|..])
      && Leads(items[1..], text[|Form(items[0])|..])
  }

  ghost predicate Trapped(text: string) {
    exists items :: Leads(items, text)
  }

  lemma {:induction false} SpacesSkip(n: nat, s: string)
    requires s == "" || s[0] != ' '
    ensures SkipSpaces(Spaces(n) + s) == s
    ensures n > 0 ==> Spaces(n) != "" && Spaces(n)[0] == ' '
  {
    if n == 0 {
      assert Spaces(0) + s == s;
    } else {
      SpacesSkip(n - 1, s);
      assert (Spaces(n) + s)[1..] == Spaces(n - 1) + s;
    }
  }

  /** A key and the spaces behind it. */
  lemma KeyGap(key: string, gap: nat, s: string)
    requires key != "" && NoStops(key) && s != "" && s[0] != ' ' && (gap > 0 || s[0] == ')')
    ensures Sticks(key + Spaces(gap) + s) <==> AfterKey(s, Upper(key), BLANK) == Stuck
  {
    hide Attributes, SkipSpaces, Upper, AfterKey;
    var text := key + Spaces(gap) + s;
    SpacesSkip(gap, s);
    assert key[0] in key && text[0] == key[0];
    KeySpan(key, gap, s);
    AttributesAre(text, BLANK);
  }

  lemma KeySpan(key: string, gap: nat, s: string)
    requires NoStops(key) && s != "" && (gap > 0 || s[0] == ')')
    ensures var text := key + Spaces(gap) + s;
            Span(text, " )") == |key| && text[..|key|] == key && text[|key|..] == Spaces(gap) + s
  {
    var text := key + Spaces(gap) + s;
    assert forall i :: 0 <= i < |key| ==> text[i] == key[i] && key[i] in key;
    assert text == key + (Spaces(gap) + s);
    assert gap == 0 ==> Spaces(gap) + s == s;
    SpanIs(text, " )", |key|);
  }

  lemma GroupedRead(value: string, next: string, key: string)
    requires Grouped(value)
    ensures AfterKey(value + next, key, BLANK) == Stuck <==> Sticks(next)
    ensures value != "" && value[0] == '('
  {
    hide Attributes, WithGroup, Content, Group, Matched;
    var content :| value == "(" + content + ")" && Matched(content);
    assert (value + next)[1..] == content + ")" + next;
    ContentRead(content, next);
    MetaIrrelevant(next, WithGroup(BLANK, key, content), BLANK);
  }

  lemma QuotedRead(value: string, next: string, key: string)
    requires QuotedValue(value)
    ensures AfterKey(value + next, key, BLANK) == Stuck <==> Sticks(next)
    ensures value != "" && value[0] == '"'
  {
    hide Attributes, WithQuoted;
    var v :| value == "\"" + v + "\"" && '"' !in v;
    var text := value + next;
    assert text[1..] == v + "\"" + next;
    QuotedEnds(v, next);
    assert text[|v| + 2..] == next;
    MetaIrrelevant(next, WithQuoted(BLANK, key, text[1..][..|v|]), BLANK);
  }

  lemma BareRead(value: string, next: string, key: string)
    requires Bare(value) && next != "" && (next[0] == ' ' || next[0] == ')')
    ensures AfterKey(value + next, key, BLANK) == Stuck <==> Sticks(next)
    ensures value[0] in value
  {
    hide Attributes, WithAtom;
    var text := value + next;
    assert forall i :: 0 <= i < |value| ==> text[i] == value[i] && value[i] in value;
    SpanIs(text, " )", |value|);
    assert text[|value|..] == next && text[..|value|] == value;
    MetaIrrelevant(next, WithAtom(BLANK, key, value), BLANK);
  }

  lemma ItemRead(i: Item, next: string)
    requires Shaped(i, next)
    ensures Sticks(Form(i) + next) <==> Sticks(next)
  {
    hide AfterKey, Grouped, QuotedValue, Upper;
    match i {
      case Blank => assert (" " + next)[1..] == next;
      case Pair(key, gap, value) =>
        if Grouped(value) { GroupedRead(value, next, Upper(key)); }
        else if QuotedValue(value) { QuotedRead(value, next, Upper(key)); }
        else { BareRead(value, next, Upper(key)); }
        KeyGap(key, gap, value + next);
        assert Form(i) + next == key + Spaces(gap) + (value + next);
    }
  }

  lemma DeadEndSticks(text: string)
    requires DeadEnd(text)
    ensures Sticks(text)
  {
    var key, gap, rest :| NoStops(key) && text == key + Spaces(gap) + ")" + rest;
    var s := ")" + rest;
    assert text == key + Spaces(gap) + s;
    if key == "" {
      assert text == Spaces(gap) + s;
      SpacesStick(gap, s);
    } else {
      KeyGap(key, gap, s);
      SpanIs(s, " )", 0);
      hide Attributes, Span, Upper, WithAtom;
      assert s[0..] == s;
      SimpleSteps(s, WithAtom(BLANK, Upper(key), s[..0]));
    }
  }

  lemma {:induction false} SpacesStick(gap: nat, s: string)
    requires s != "" && s[0] == ')'
    ensures Sticks(Spaces(gap) + s)
  {
    if gap == 0 {
      assert Spaces(0) + s == s;
    } else {
      SpacesStick(gap - 1, s);
      assert (Spaces(gap) + s)[1..] == Spaces(gap - 1) + s;
    }
  }

  lemma {:induction false} LeadsSticks(items: seq<Item>, text: string)
    requires Leads(items, text)
    ensures Sticks(text)
    decreases |items|
  {
    hide Attributes, Shaped;
    if items == [] {
      DeadEndSticks(text);
    } else {
      var next := text[|Form(items[0])|..];
      assert text == Form(items[0]) + next;
      LeadsSticks(items[1..], next);
      ItemRead(items[0], next);
    }
  }

  /** A group that leaves something behind it was closed. */
  lemma {:induction false} GroupClosed(text: string, depth: nat)
    requires depth > 0 && Group(text, depth) < |text|
    ensures var n := Group(text, depth); n > 0 && text[n - 1] == ')' && Level(text[..n - 1], depth) == Some(1)
  {
    var next := if text[0] == '(' then depth + 1 else if text[0] == ')' then depth - 1 else depth;
    if next == 0 {
      assert text[..0] == "";
    } else {
      GroupClosed(text[1..], next);
      var n := Group(text, depth);
      assert text[..n - 1][0] == text[0] && text[..n - 1][1..] == text[1..][..n - 2];
    }
  }

  /** How a text splits into its first key, the spaces behind it and the rest. */
  lemma {:induction false} SkipSplits(text: string) returns (gap: nat)
    ensures text == Spaces(gap) + SkipSpaces(text)
  {
    if text != "" && text[0] == ' ' {
      gap := SkipSplits(text[1..]);
      gap := gap + 1;
      assert text == " " + text[1..];
    } else {
      gap := 0;
    }
  }

  /** Prepending an item to a trap. */
  lemma TrapGrows(i: Item, next: string)
    requires Shaped(i, next) && Trapped(next)
    ensures Trapped(Form(i) + next)
  {
    hide Shaped, DeadEnd;
    var items :| Leads(items, next);
    var text := Form(i) + next;
    assert text[|Form(i)|..] == next && ([i] + items)[1..] == items;
    assert Leads([i] + items, text);
  }

  lemma DeadTraps(text: string)
    requires DeadEnd(text)
    ensures Trapped(text)
  {
    assert Leads([], text);
  }

  lemma {:induction false} SticksTraps(text: string)
    requires Sticks(text)
    ensures Trapped(text)
    decreases |text|
  {
    hide Trapped, AfterKey, Shaped, Upper, Attributes, Spaces, Grouped, QuotedValue;
    SimpleSteps(text, BLANK);
    if text[0] == ' ' {
      SticksTraps(text[1..]);
      BlankShaped(text[1..]);
      TrapGrows(Blank, text[1..]);
      assert text == " " + text[1..];
    } else if text[0] == ')' {
      ParenthesisDead(text);
      DeadTraps(text);
    } else {
      var key, gap, s := KeySplits(text);
      NothingAfter(key);
      if s[0] == ')' {
        assert text == key + Spaces(gap) + ")" + s[1..];
        DeadTraps(text);
      } else {
        var value := ValueSticks(s, key);
        SticksTraps(s[|value|..]);
        PairShaped(key, gap, value, s[|value|..]);
        TrapGrows(Pair(key, gap, value), s[|value|..]);
        assert text == Form(Pair(key, gap, value)) + s[|value|..];
      }
    }
  }

  /** The first key, the spaces behind it, and the rest. */
  lemma KeySplits(text: string) returns (key: string, gap: nat, s: string)
    requires text != "" && text[0] != ' ' && text[0] != ')'
    ensures text == key + Spaces(gap) + s && key != "" && NoStops(key) && (s == "" || s[0] != ' ') && |s| < |text|
    ensures s != "" && s[0] != ')' ==> gap > 0
    ensures Attributes(text, BLANK) == AfterKey(s, Upper(key), BLANK)
  {
    hide Attributes, AfterKey, Upper;
    var n := Span(text, " )");
    gap := SkipSplits(text[n..]);
    key, s := text[..n], SkipSpaces(text[n..]);
    KeyMoves(text);
    AttributesAre(text, BLANK);
    assert gap == 0 ==> text[n..] == s;
  }

  lemma ParenthesisDead(text: string)
    requires text != "" && text[0] == ')'
    ensures DeadEnd(text)
  {
    assert text == "" + Spaces(0) + ")" + text[1..] && NoStops("");
  }

  lemma BlankShaped(next: string)
    ensures Shaped(Blank, next)
  {
  }

  lemma NothingAfter(key: string)
    ensures AfterKey("", Upper(key), BLANK) != Stuck
  {
  }

  lemma PairShaped(key: string, gap: nat, value: string, next: string)
    requires key != "" && NoStops(key) && gap > 0
    requires Grouped(value) || QuotedValue(value) || (Bare(value) && next != "" && (next[0] == ' ' || next[0] == ')'))
    ensures Shaped(Pair(key, gap, value), next)
  {
  }

  /** A value after which the scan sticks is complete. */
  lemma ValueSticks(s: string, key: string) returns (value: string)
    requires s != "" && s[0] != ')' && s[0] != ' ' && AfterKey(s, Upper(key), BLANK) == Stuck
    ensures value != "" && value <= s && Sticks(s[|value|..])
    ensures var next := s[|value|..];
            Grouped(value) || QuotedValue(value) || (Bare(value) && next != "" && (next[0] == ' ' || next[0] == ')'))
  {
    hide Attributes, WithGroup, WithQuoted, WithAtom;
    SimpleSteps("", BLANK);
    if s[0] == '(' {
      var n := Group(s[1..], 1);
      var next := s[1..][n..];
      MetaIrrelevant(next, WithGroup(BLANK, Upper(key), Content(s[1..])), BLANK);
      assert next != "";
      GroupClosed(s[1..], 1);
      value := s[..n + 1];
      assert value == "(" + s[1..][..n - 1] + ")" && s[|value|..] == next;
    } else if s[0] == '"' {
      var n := Span(s[1..], "\"");
      MetaIrrelevant(if 1 + n < |s| then s[n + 2..] else "", WithQuoted(BLANK, Upper(key), s[1..][..n]), BLANK);
      value := s[..n + 2];
      assert value == "\"" + s[1..][..n] + "\"" && '"' !in s[1..][..n];
    } else {
      var n := Span(s, " )");
      MetaIrrelevant(s[n..], WithAtom(BLANK, Upper(key), s[..n]), BLANK);
      value := s[..n];
      assert s[n..] != "";
    }
  }

  /** Main result: the scan never ends exactly if the text is complete items followed by a closing
      parenthesis where a key or a value should be. */
  lemma NeverEndsIff(text: string, m: Meta)
    ensures Attributes(text, m) == Stuck <==> Trapped(text)
  {
    hide Attributes, Leads;
    MetaIrrelevant(text, m, BLANK);
    if Sticks(text) { SticksTraps(text); }
    if Trapped(text) {
      var items :| Leads(items, text);
      LeadsSticks(items, text);
    }
  }

  // ---------- envelopes ----------

  /** What is printed behind an attribute. */
  function Behind(after: seq<Attribute>): string {
    if after == [] then "" else " " + Attrs(after)
  }

  /** What is left of a text when the group it starts with has been read. */
  function Left(text: string): string {
    text[Group(text, 1)..]
  }

  lemma {:induction false} BeforeRead(before: seq<Attribute>, a: Attribute, after: seq<Attribute>, m: Meta) returns (k: Meta)
    requires forall b <- before :: AttributeSurvives(b)
    ensures Attributes(Attrs(before + [a] + after), m) == Attributes(Attr(a) + Behind(after), k)
    decreases |before|
  {
    hide Attr, Attributes, Taken, AttributeSurvives;
    var all := before + [a] + after;
    if before == [] {
      k := m;
      assert all[1..] == after && all[0] == a;
      assert Attr(a) + "" == Attr(a);
      assert Attr(a) + " " + Attrs(after) == Attr(a) + (" " + Attrs(after));
    } else {
      var rest := before[1..] + [a] + after;
      assert all[0] == before[0] && all[1..] == rest && |all| > 1;
      TenFields(before);
      AttributeRead(before[0], " " + Attrs(rest), m);
      assert Attrs(all) == Attr(before[0]) + (" " + Attrs(rest));
      assert (" " + Attrs(rest))[1..] == Attrs(rest);
      SimpleSteps(" " + Attrs(rest), Taken(m, before[0]));
      k := BeforeRead(before[1..], a, after, Taken(m, before[0]));
    }
  }

  lemma EnvelopeLeft(text: string, m: Meta) returns (k: Meta)
    ensures Attributes("ENVELOPE (" + text, m) == Attributes(Left(text), k)
  {
    hide Attributes, Group, WithGroup, Content;
    var value := "(" + text;
    assert "ENVELOPE (" + text == "ENVELOPE" + " " + value;
    KeyRead("ENVELOPE", value, m);
    assert value[1..] == text;
    k := WithGroup(m, "ENVELOPE", Content(text));
  }

  /** Main result: whatever its strings are, a printed line never lets the scan finish exactly if what is left
      of it behind the place where the scan takes the ENVELOPE to end is a trap. */
  lemma EnvelopeNeverEndsIff(number: nat, before: seq<Attribute>, fields: seq<Field>, after: seq<Attribute>)
    requires forall b <- before :: AttributeSurvives(b)
    ensures ScanLine(FetchLine(number, before + [Envelope(fields)] + after)) == Stuck <==>
            Trapped(Left(Sequence(fields) + ")" + Behind(after)))
  {
    hide Attributes, Attrs, Trapped, Left, ScanLine, Print, Sequence, AttributeSurvives;
    var all := before + [Envelope(fields)] + after;
    var text := Sequence(fields) + ")" + Behind(after);
    LineOf(Print(number), Attrs(all));
    var m := BeforeRead(before, Envelope(fields), after, BLANK);
    assert Attr(Envelope(fields)) + Behind(after) == "ENVELOPE (" + text;
    var k := EnvelopeLeft(text, m);
    NeverEndsIff(Left(text), k);
  }

  // ---------- strings without spaces ----------

  /** No space, quote or backslash, and parentheses that match. */
  ghost predicate Solid(v: NString) {
    NSurvives(v) && (v.Some? ==> ' ' !in v.value)
  }

  ghost predicate SolidField(f: Field) {
    match f
    case Text(v) => Solid(v)
    case Addresses(first, more) =>
      Solid(first.personal) && Solid(first.route) && Solid(first.mailbox) && Solid(first.host) && FieldSurvives(f)
  }

  /** Fields with a space before each. */
  function Trail(fields: seq<Field>): string {
    if fields == [] then "" else " " + Shown(fields[0]) + Trail(fields[1..])
  }

  function Weight(fields: seq<Field>): nat {
    if fields == [] then 0 else (if fields[0].Text? then 1 else 5) + Weight(fields[1..])
  }

  /** Text that runs into a closing parenthesis before any space is a dead end. */
  lemma CutShort(text: string, rest: string)
    requires ' ' !in text && ')' in text
    ensures Sticks(text + rest)
  {
    var p := Span(text, ")");
    var q :| 0 <= q < |text| && text[q] == ')';
    assert p <= q && text[p] == ')' && ')' !in text[..p];
    assert forall c <- text[..p] :: c in text;
    assert NoStops(text[..p]) && text + rest == text[..p] + Spaces(0) + ")" + (text[p + 1..] + rest);
    DeadEndSticks(text + rest);
  }

  /** Without spaces in them, the fields behind a key bring the scan to the parenthesis behind them, or to one
      before it. */
  lemma {:induction false} KeyThenFields(key: string, fields: seq<Field>, rest: string)
    requires key != "" && ' ' !in key && forall f <- fields :: SolidField(f)
    ensures Sticks(key + Trail(fields) + ")" + rest)
    decreases Weight(fields), 1
  {
    hide Sticks, SolidField, Shown, Grouped, QuotedValue, Bare;
    var text := key + Trail(fields) + ")" + rest;
    if ')' in key {
      CutShort(key, Trail(fields) + ")" + rest);
      assert text == key + (Trail(fields) + ")" + rest);
    } else if fields == [] {
      assert text == key + Spaces(0) + ")" + rest && NoStops(key);
      DeadEndSticks(text);
    } else {
      var next := Trail(fields[1..]) + ")" + rest;
      assert fields[0] in fields && forall f <- fields[1..] :: f in fields;
      FieldsStick(fields[1..], rest);
      FieldIsValue(fields[0]);
      TrailStarts(fields[1..]);
      PairShaped(key, 1, Shown(fields[0]), next);
      ItemRead(Pair(key, 1, Shown(fields[0])), next);
      assert Spaces(1) == " " by { assert Spaces(0) == ""; }
      assert text == Form(Pair(key, 1, Shown(fields[0]))) + next;
    }
  }

  lemma TrailStarts(fields: seq<Field>)
    ensures fields != [] ==> Trail(fields) != "" && Trail(fields)[0] == ' '
  {
  }

  lemma FieldIsValue(f: Field)
    requires SolidField(f)
    ensures Grouped(Shown(f)) || QuotedValue(Shown(f)) || Bare(Shown(f))
  {
    match f
    case Text(v) => if v.Some? { EscapedIs(v.value); }
    case Addresses(first, more) =>
      ListedMatched([first] + more);
      assert Grouped("(" + Listed([first] + more) + ")");
  }

  lemma SolidShown(v: NString)
    requires Solid(v)
    ensures ' ' !in Nullable(v) && Nullable(v) != ""
  {
    if v.Some? { EscapedIs(v.value); }
  }

  lemma ShownIs(v: NString)
    ensures Shown(Text(v)) == Nullable(v)
  {
  }

  lemma BlankSticks(text: string)
    requires Sticks(text)
    ensures Sticks(" " + text)
  {
    assert (" " + text)[1..] == text;
  }

  lemma {:induction false} FieldsStick(fields: seq<Field>, rest: string)
    requires forall f <- fields :: SolidField(f)
    ensures Sticks(Trail(fields) + ")" + rest)
    decreases Weight(fields), 0
  {
    hide Sticks, Shown;
    var text := Trail(fields) + ")" + rest;
    if fields == [] {
      assert text == "" + Spaces(0) + ")" + rest && NoStops("");
      DeadEndSticks(text);
    } else {
      var f := fields[0];
      assert f in fields && forall g <- fields[1..] :: g in fields;
      var behind := Trail(fields[1..]) + ")" + rest;
      match f {
        case Text(v) =>
          SolidShown(v);
          ShownIs(v);
          KeyThenFields(Nullable(v), fields[1..], rest);
        case Addresses(first, more) => AddressSticks(first, more, behind);
      }
      assert Shown(f) + Trail(fields[1..]) + ")" + rest == Shown(f) + behind;
      BlankSticks(Shown(f) + Trail(fields[1..]) + ")" + rest);
      assert text == " " + (Shown(f) + Trail(fields[1..]) + ")" + rest);
    }
  }

  lemma AddressSticks(first: Address, more: seq<Address>, behind: string)
    requires SolidField(Addresses(first, more))
    ensures Sticks(Shown(Addresses(first, more)) + behind)
    decreases 3, 2
  {
    hide Sticks, Nullable, Listed, Inside, Trail, SolidField;
    var key := "((" + Nullable(first.personal);
    var tail := Listed(more) + ")" + behind;
    var parts := [Text(first.route), Text(first.mailbox), Text(first.host)];
    SolidParts(first, more);
    SolidShown(first.personal);
    ThreeParts(first);
    KeyThenFields(key, parts, tail);
    ListedFirst(first, more);
    Nested(Nullable(first.personal), Trail(parts), Inside(first), Listed(more), behind);
  }

  lemma Nested(a: string, b: string, inside: string, more: string, behind: string)
    requires a + b == inside
    ensures "((" + a + b + ")" + (more + ")" + behind) == "(" + ("(" + inside + ")" + more) + ")" + behind
  {
    assert "((" + a + b == "((" + inside;
  }

  lemma SolidParts(first: Address, more: seq<Address>)
    requires SolidField(Addresses(first, more))
    ensures Solid(first.personal) && forall f <- [Text(first.route), Text(first.mailbox), Text(first.host)] :: SolidField(f)
  {
  }

  lemma ListedFirst(first: Address, more: seq<Address>)
    ensures Listed([first] + more) == "(" + Inside(first) + ")" + Listed(more)
  {
    assert ([first] + more)[1..] == more;
  }

  lemma ThreeParts(a: Address)
    ensures var parts := [Text(a.route), Text(a.mailbox), Text(a.host)];
            Weight(parts) == 3 && Nullable(a.personal) + Trail(parts) == Inside(a)
  {
    hide Nullable, Shown;
    var parts := [Text(a.route), Text(a.mailbox), Text(a.host)];
    var two := parts[1..];
    assert two == [Text(a.mailbox), Text(a.host)] && two[1..] == [Text(a.host)] && two[1..][1..] == [];
    ShownIs(a.route);
    ShownIs(a.mailbox);
    ShownIs(a.host);
    OneTrail(Text(a.host));
    assert Trail(two) == " " + Nullable(a.mailbox) + (" " + Nullable(a.host));
    assert Trail(parts) == " " + Nullable(a.route) + Trail(two);
    assert Weight(two[1..][1..]) == 0 && Weight(two[1..]) == 1;
    assert Weight(two) == 2;
    assert Nullable(a.personal) + (" " + Nullable(a.route) + (" " + Nullable(a.mailbox) + (" " + Nullable(a.host)))) == Inside(a);
  }

  // ---------- one parenthesis too many ----------

  lemma {:induction false} TrailSnoc(fields: seq<Field>, f: Field)
    ensures Trail(fields + [f]) == Trail(fields) + " " + Shown(f)
  {
    hide Shown;
    if fields == [] {
      assert ([] + [f])[1..] == [];
      assert " " + Shown(f) + "" == "" + " " + Shown(f);
    } else {
      TrailSnoc(fields[1..], f);
      assert (fields + [f])[1..] == fields[1..] + [f];
      assert " " + Shown(fields[0]) + (Trail(fields[1..]) + " " + Shown(f)) == " " + Shown(fields[0]) + Trail(fields[1..]) + " " + Shown(f);
    }
  }

  lemma {:induction false} SequenceJoins(before: seq<Field>, fields: seq<Field>)
    requires before != []
    ensures Sequence(before + fields) == Sequence(before) + Trail(fields)
    decreases |fields|
  {
    hide Shown;
    if fields == [] {
      assert before + [] == before && Sequence(before) + "" == Sequence(before);
    } else {
      var n := |fields| - 1;
      var all := before + fields;
      assert fields == fields[..n] + [fields[n]] && all[..|all| - 1] == before + fields[..n] && all[|all| - 1] == fields[n];
      SequenceJoins(before, fields[..n]);
      TrailSnoc(fields[..n], fields[n]);
      assert Sequence(before) + Trail(fields[..n]) + " " + Shown(fields[n]) == Sequence(before) + (Trail(fields[..n]) + " " + Shown(fields[n]));
    }
  }

  /** The printed fields up to and including the opening quote of the next string. */
  function Opening(before: seq<Field>): string {
    if before == [] then "\"" else Sequence(before) + " \""
  }

  lemma OpeningMatched(before: seq<Field>)
    requires forall f <- before :: FieldSurvives(f)
    ensures Matched(Opening(before))
  {
    hide Matched, Sequence;
    if before == [] {
      MatchedWithout("\"");
    } else {
      SequenceMatched(before);
      MatchedWithout(" \"");
      MatchedJoin(Sequence(before), " \"");
    }
  }

  lemma SequenceSplits(before: seq<Field>, v: string, later: seq<Field>)
    requires '"' !in v && '\\' !in v
    ensures Sequence(before + [Text(Some(v))] + later) == Opening(before) + v + "\"" + Trail(later)
  {
    hide Sequence, Trail, Shown;
    EscapedIs(v);
    var f := Text(Some(v));
    assert Shown(f) == "\"" + v + "\"" by { ShownText(v); }
    SequenceJoins(before + [f], later);
    if before == [] {
      assert before + [f] == [f];
      OneField(f);
    } else {
      SequenceJoins(before, [f]);
      OneTrail(f);
      assert Sequence(before) + (" " + Shown(f)) + Trail(later) == Sequence(before) + " \"" + v + "\"" + Trail(later);
    }
  }

  lemma ShownText(v: string)
    requires Escaped(v) == v
    ensures Shown(Text(Some(v))) == "\"" + v + "\""
  {
  }

  lemma OneField(f: Field)
    ensures Sequence([f]) == Shown(f)
  {
  }

  lemma OneTrail(f: Field)
    ensures Trail([f]) == " " + Shown(f)
  {
    hide Shown;
    assert [f][1..] == [] && Trail([]) == "";
    assert " " + Shown(f) + "" == " " + Shown(f);
  }

  lemma SurvivesIs(v: string)
    requires Survives(v)
    ensures Matched(v) && '"' !in v && '\\' !in v
  {
  }

  lemma LeftIs(content: string, left: string)
    requires Matched(content)
    ensures Left(content + ")" + left) == left
  {
    ContentRead(content, left);
  }

  lemma Regrouped(opening: string, v: string, w: string, later: string, behind: string)
    ensures opening + (v + ")" + w) + "\"" + later + ")" + behind == opening + v + ")" + (w + "\"" + later + ")" + behind)
  {
  }

  /** A string with one closing parenthesis too many, anywhere in an ENVELOPE and whatever comes before it,
      never lets the scan finish if from there on no string has a space in it. */
  lemma UnmatchedNeverEnds(number: nat, attributes: seq<Attribute>, before: seq<Field>, v: string, w: string, later: seq<Field>,
                           after: seq<Attribute>)
    requires (forall a <- attributes :: AttributeSurvives(a)) && forall f <- before :: FieldSurvives(f)
    requires Survives(v) && '"' !in w && '\\' !in w && ' ' !in w && forall f <- later :: SolidField(f)
    ensures ScanLine(FetchLine(number, attributes + [Envelope(before + [Text(Some(v + ")" + w))] + later)] + after)) == Stuck
  {
    hide Attributes, Sequence, Trail, ScanLine, FetchLine, Matched, Group, Content, Trapped, SolidField, AttributeSurvives, FieldSurvives, Opening,
         Left, Behind, Survives;
    var fields := before + [Text(Some(v + ")" + w))] + later;
    var content, left := Opening(before) + v, w + "\"" + Trail(later) + ")" + Behind(after);
    OpeningMatched(before);
    SurvivesIs(v);
    MatchedJoin(Opening(before), v);
    SequenceSplits(before, v + ")" + w, later);
    Regrouped(Opening(before), v, w, Trail(later), Behind(after));
    LeftIs(content, left);
    KeyThenFields(w + "\"", later, Behind(after));
    NeverEndsIff(left, BLANK);
    EnvelopeNeverEndsIff(number, attributes, fields, after);
  }
}
