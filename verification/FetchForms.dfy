/**
 Lines that are not printed the usual way: keys in any case, spaces in any number, bare atoms, values and groups that
 are never closed, and envelopes with fields missing (imap/_parsing.py lines 24-266).
 */
module FetchForms {
  import opened Outcome
  import opened Text
  import opened Decimal
  import opened FetchScanner
  import opened FetchPrinter
  import opened FetchTrap

  // ---------- any case, any spacing ----------

  function Key(a: Attribute): string {
    match a
    case Uid(_) => "UID"
    case Flags(_) => "FLAGS"
    case InternalDate(_) => "INTERNALDATE"
    case Size(_) => "RFC822.SIZE"
    case Envelope(_) => "ENVELOPE"
  }

  function Value(a: Attribute): string {
    match a
    case Uid(uid) => Print(uid)
    case Flags(flags) => "(" + Spaced(flags) + ")"
    case InternalDate(date) => Quoted(date)
    case Size(size) => Print(size)
    case Envelope(fields) => "(" + Sequence(fields) + ")"
  }

  lemma AttrSplits(a: Attribute)
    ensures Attr(a) == Key(a) + " " + Value(a) && Value(a) != "" && Value(a)[0] != ' '
  {
    hide IsKey, Print, Quoted, Spaced, Sequence;
    match a {
      case Uid(n) => assert IsDigit(Print(n)[0]); assert "UID" + " " == "UID ";
      case Flags(flags) => assert "FLAGS" + " " + ("(" + Spaced(flags) + ")") == "FLAGS (" + Spaced(flags) + ")";
      case InternalDate(date) => QuoteOpens(date); assert "INTERNALDATE" + " " == "INTERNALDATE ";
      case Size(n) => assert IsDigit(Print(n)[0]); assert "RFC822.SIZE" + " " == "RFC822.SIZE ";
      case Envelope(fields) => assert "ENVELOPE" + " " + ("(" + Sequence(fields) + ")") == "ENVELOPE (" + Sequence(fields) + ")";
    }
  }

  lemma KeyIsKey(a: Attribute)
    ensures IsKey(Key(a))
  {
  }

  lemma QuoteOpens(v: string)
    ensures Quoted(v) != "" && Quoted(v)[0] == '"'
  {
  }

  /** The same key, some of its letters in lower case. */
  predicate InAnyCase(k: string, key: string) {
    |k| == |key| && forall i :: 0 <= i < |k| ==> k[i] == key[i] || ('A' <= key[i] <= 'Z' && k[i] as int == key[i] as int + 32)
  }

  lemma CaseFolds(k: string, key: string)
    requires IsKey(key) && InAnyCase(k, key)
    ensures Upper(k) == key && k != "" && NoStops(k)
  {
    forall i | 0 <= i < |k| ensures Upper(k)[i] == key[i] && k[i] != ' ' && k[i] != ')' {
      assert key[i] in key;
    }
  }

  lemma LooseKey(k: string, key: string, gap: nat, value: string, m: Meta)
    requires IsKey(key) && InAnyCase(k, key) && gap > 0 && value != "" && value[0] != ' '
    ensures Attributes(k + Spaces(gap) + value, m) == Attributes(key + " " + value, m)
  {
    hide Attributes, AfterKey, Upper, SkipSpaces, Span;
    CaseFolds(k, key);
    KeySpan(k, gap, value);
    SpacesSkip(gap, value);
    KeyRead(key, value, m);
    var text := k + Spaces(gap) + value;
    assert text[0] == k[0] && k[0] in k;
    AttributesAre(text, m);
  }

  lemma {:induction false} LeadSkipped(n: nat, text: string, m: Meta)
    ensures Attributes(Spaces(n) + text, m) == Attributes(text, m)
  {
    if n == 0 {
      assert Spaces(0) + text == text;
    } else {
      assert (Spaces(n) + text)[1..] == Spaces(n - 1) + text;
      LeadSkipped(n - 1, text, m);
    }
  }

  /** An attribute as some server may print it. */
  datatype Loose = Loose(lead: nat, key: string, gap: nat, attribute: Attribute)

  function LooseForm(l: Loose): string {
    Spaces(l.lead) + (l.key + Spaces(l.gap) + Value(l.attribute))
  }

  function LooseForms(ls: seq<Loose>): string {
    if ls == [] then "" else LooseForm(ls[0]) + LooseForms(ls[1..])
  }

  function Meant(ls: seq<Loose>): seq<Attribute> {
    seq(|ls|, i requires 0 <= i < |ls| => ls[i].attribute)
  }

  ghost predicate LooseOk(l: Loose) {
    InAnyCase(l.key, Key(l.attribute)) && l.gap > 0 && AttributeSurvives(l.attribute)
  }

  lemma LooseRead(l: Loose, tail: string, m: Meta)
    requires LooseOk(l) && (tail == "" || tail[0] == ' ')
    ensures Attributes(LooseForm(l) + tail, m) == Attributes(tail, Taken(m, l.attribute))
  {
    hide Attributes, Value, Key, IsKey, InAnyCase, AttributeSurvives, Taken;
    var value := Value(l.attribute) + tail;
    AttrSplits(l.attribute);
    KeyIsKey(l.attribute);
    assert LooseForm(l) + tail == Spaces(l.lead) + (l.key + Spaces(l.gap) + value);
    LeadSkipped(l.lead, l.key + Spaces(l.gap) + value, m);
    LooseKey(l.key, Key(l.attribute), l.gap, value, m);
    assert Key(l.attribute) + " " + value == Attr(l.attribute) + tail;
    AttributeRead(l.attribute, tail, m);
  }

  lemma {:induction false} LooseReads(ls: seq<Loose>, end: nat, m: Meta)
    requires (forall l <- ls :: LooseOk(l)) && forall i :: 0 < i < |ls| ==> ls[i].lead > 0
    ensures forall a <- Meant(ls) :: a.Envelope? ==> |a.fields| == 10
    ensures Attributes(LooseForms(ls) + Spaces(end), m) == Scanned(AllTaken(m, Meant(ls)))
    decreases |ls|
  {
    hide Attributes, LooseOk, Taken, LooseForm;
    assert forall a <- Meant(ls) :: a.Envelope? ==> |a.fields| == 10 by { MeantTen(ls); }
    if ls == [] {
      LeadSkipped(end, "", m);
      assert Spaces(end) + "" == Spaces(end) == LooseForms(ls) + Spaces(end);
      SimpleSteps("", m);
    } else {
      var rest, tail := ls[1..], LooseForms(ls[1..]) + Spaces(end);
      assert LooseForms(ls) + Spaces(end) == LooseForm(ls[0]) + tail;
      StartsApart(rest, end);
      assert ls[0].attribute in Meant(ls) by { assert Meant(ls)[0] == ls[0].attribute; }
      LooseRead(ls[0], tail, m);
      LooseReads(rest, end, Taken(m, ls[0].attribute));
      assert Meant(ls)[0] == ls[0].attribute && Meant(ls)[1..] == Meant(rest);
    }
  }

  lemma MeantTen(ls: seq<Loose>)
    requires forall l <- ls :: LooseOk(l)
    ensures forall a <- Meant(ls) :: a.Envelope? ==> |a.fields| == 10
  {
    forall a <- Meant(ls) | a.Envelope? ensures |a.fields| == 10 {
      var i :| 0 <= i < |ls| && Meant(ls)[i] == a;
      assert ls[i] in ls && LooseOk(ls[i]);
    }
  }

  lemma StartsApart(ls: seq<Loose>, end: nat)
    requires ls != [] ==> ls[0].lead > 0
    ensures var text := LooseForms(ls) + Spaces(end); text == "" || text[0] == ' '
  {
    if ls != [] { assert Spaces(ls[0].lead)[0] == ' '; }
  }

  /** Main result: keys in any case and any number of spaces make no difference to what a line says. */
  lemma LooseLineReads(number: nat, ls: seq<Loose>, end: nat)
    requires (forall l <- ls :: LooseOk(l)) && forall i :: 0 < i < |ls| ==> ls[i].lead > 0
    ensures forall a <- Meant(ls) :: a.Envelope? ==> |a.fields| == 10
    ensures ScanLine(Print(number) + " (" + (LooseForms(ls) + Spaces(end)) + ")") == Scanned(AllTaken(BLANK, Meant(ls)))
  {
    hide Attributes, ScanLine, Print, LooseForms, LooseOk;
    LooseReads(ls, end, BLANK);
    LineOf(Print(number), LooseForms(ls) + Spaces(end));
  }

  // ---------- lines that are given up ----------

  lemma {:induction false} FirstParenthesis(line: string)
    ensures FromParenthesis(line) == "" <==> '(' !in line
    ensures '(' in line ==> FromParenthesis(line)[0] == '(' && FromParenthesis(line)[|FromParenthesis(line)| - 1] == line[|line| - 1]
  {
    if line != "" && line[0] != '(' {
      assert line == [line[0]] + line[1..];
      FirstParenthesis(line[1..]);
    }
  }

  lemma {:induction false} NeverUnusable(text: string, m: Meta)
    ensures Attributes(text, m) != Unusable
    decreases |text|
  {
    hide SkipSpaces, Upper, WithGroup, WithQuoted, WithAtom, Content;
    if text != "" && text[0] != ')' {
      if text[0] == ' ' {
        NeverUnusable(text[1..], m);
      } else {
        KeyMoves(text);
        AttributesAre(text, m);
        AfterNeverUnusable(SkipSpaces(text[Span(text, " )")..]), Upper(text[..Span(text, " )")]), m);
      }
    }
  }

  lemma {:induction false} AfterNeverUnusable(s: string, key: string, m: Meta)
    ensures AfterKey(s, key, m) != Unusable
    decreases |s|, 1
  {
    hide Attributes, SkipSpaces, Upper, WithGroup, WithQuoted, WithAtom, Content, Group, Span;
    if s != "" {
      if s[0] == '(' {
        NeverUnusable(s[1..][Group(s[1..], 1)..], WithGroup(m, key, Content(s[1..])));
      } else if s[0] == '"' {
        var k := Span(s[1..], "\"");
        NeverUnusable(if 1 + k < |s| then s[k + 2..] else "", WithQuoted(m, key, s[1..][..k]));
      } else {
        var k := Span(s, " )");
        SimpleSteps(s, WithAtom(m, key, s[..k]));
        if k > 0 {
          NeverUnusable(s[k..], WithAtom(m, key, s[..k]));
        } else {
          assert s[0..] == s;
          if s[0] == ' ' { NeverUnusable(s[1..], WithAtom(m, key, s[..k])); }
        }
      }
    }
  }

  /** A line is given up exactly if it has no opening parenthesis or does not end with a closing one. */
  lemma UnusableIff(line: string)
    ensures ScanLine(line) == Unusable <==> '(' !in line || line[|line| - 1] != ')'
  {
    hide Attributes;
    FirstParenthesis(line);
    var text := FromParenthesis(line);
    if |text| >= 2 { NeverUnusable(text[1..|text| - 1], BLANK); }
  }

  // ---------- bare atoms ----------

  predicate IsAtom(atom: string) {
    atom != "" && ' ' !in atom && atom[0] != '"' && atom[0] != '(' && !("NIL" <= atom)
  }

  lemma AtomSpan(atom: string, tail: string)
    requires IsAtom(atom) && (tail == "" || tail[0] == ' ')
    ensures var text := atom + tail;
            && Span(text, " ") == |atom| && text[..|atom|] == atom && text[|atom|..] == tail && text[0] == atom[0] != ' ' && !("NIL" <= text)
  {
    var text := atom + tail;
    assert forall i :: 0 <= i < |atom| ==> text[i] == atom[i] && atom[i] in atom;
    SpanIs(text, " ", |atom|);
  }

  /** An atom is read as it is, in an envelope and in an address. */
  lemma AtomRead(atom: string, tail: string)
    requires IsAtom(atom) && (tail == "" || tail[0] == ' ')
    ensures ReadField(atom + tail) == (atom, tail)
    ensures Parts(atom + tail) == [atom] + Parts(tail)
  {
    hide Parts, Span, ReadField;
    AtomSpan(atom, tail);
    FieldStep(atom + tail, atom + tail);
    PartsStep(atom + tail);
  }

  // ---------- what is never closed ----------

  /** A string whose quote is missing is everything that is left. */
  lemma OpenQuote(v: string, key: string, m: Meta)
    requires '"' !in v && IsKey(key)
    ensures ReadField("\"" + v) == (v, "")
    ensures Parts("\"" + v) == [v]
    ensures Attributes(key + " \"" + v, m) == Scanned(WithQuoted(m, key, v))
  {
    hide Parts, ReadField, Attributes, WithQuoted;
    var text := "\"" + v;
    assert text[1..] == v && v[..|v|] == v;
    assert forall i :: 0 <= i < |v| ==> v[i] in v;
    SpanIs(v, "\"", |v|);
    FieldStep(text, text);
    PartsStep(text);
    NoPartsLeft();
    assert key + " \"" + v == key + " " + text;
    KeyRead(key, text, m);
    SimpleSteps("", WithQuoted(m, key, v));
  }

  /** A group that is never closed takes everything that is left, less its last character. */
  lemma {:induction false} OpenGroup(text: string, depth: nat)
    requires Level(text, depth).Some? && Level(text, depth).value > 0
    ensures Group(text, depth) == |text|
    ensures depth == 1 && text != "" ==> Content(text) == text[..|text| - 1]
  {
    if text != "" { OpenGroup(text[1..], if text[0] == '(' then depth + 1 else if text[0] == ')' then depth - 1 else depth); }
  }

  // ---------- what is passed over ----------

  predicate Known(key: string) {
    key in {"FLAGS", "ENVELOPE", "INTERNALDATE", "RFC822.SIZE"}
  }

  /** Attributes of other names are passed over, whatever their values are like. */
  lemma OthersSkipped(key: string, content: string, tail: string, m: Meta)
    requires IsKey(key) && !Known(key)
    ensures Matched(content) ==> Attributes(key + " (" + content + ")" + tail, m) == Attributes(tail, m)
    ensures '"' !in content ==> Attributes(key + " \"" + content + "\"" + tail, m) == Attributes(tail, m)
    ensures IsAtom(content) && ')' !in content && (tail == "" || tail[0] == ' ') ==>
              Attributes(key + " " + content + tail, m) == Attributes(tail, m)
  {
    hide Attributes, Matched;
    if Matched(content) { GroupAttribute(key, content, tail, m); }
    if '"' !in content { QuotedAttribute(key, content, tail, m); }
    if IsAtom(content) && ')' !in content && (tail == "" || tail[0] == ' ') { BareValue(key, content, tail, m); }
  }

  lemma BareValue(key: string, atom: string, tail: string, m: Meta)
    requires IsKey(key) && IsAtom(atom) && ')' !in atom && (tail == "" || tail[0] == ' ')
    ensures Attributes(key + " " + atom + tail, m) == Attributes(tail, WithAtom(m, key, atom))
  {
    hide Attributes, WithAtom;
    var value := atom + tail;
    assert key + " " + atom + tail == key + " " + value;
    assert forall i :: 0 <= i < |atom| ==> value[i] == atom[i] && atom[i] in atom;
    SpanIs(value, " )", |atom|);
    assert value[0] == atom[0] && value[..|atom|] == atom && value[|atom|..] == tail;
    KeyRead(key, value, m);
  }

  /** A size that is no number is passed over too. */
  lemma BadSizeSkipped(atom: string, tail: string, m: Meta)
    requires IsAtom(atom) && ')' !in atom && !AllDigits(atom) && (tail == "" || tail[0] == ' ')
    ensures Attributes("RFC822.SIZE " + atom + tail, m) == Attributes(tail, m)
  {
    hide Attributes;
    BareValue("RFC822.SIZE", atom, tail, m);
    assert "RFC822.SIZE" + " " == "RFC822.SIZE ";
  }

  // ---------- envelopes with fields missing ----------

  lemma {:induction false} NothingMore(text: string, n: nat, more: nat)
    requires ReadFields(text, n).1 == ""
    ensures ReadFields(text, n + more).1 == "" && ReadFields(text, n + more).0 == ReadFields(text, n).0 + seq(more, _ => "")
  {
    hide ReadField;
    if more > 0 {
      NothingMore(text, n, more - 1);
      NoField();
      assert seq(more - 1, _ => "") + [""] == seq(more, _ => "");
    }
  }

  lemma NoField()
    ensures ReadField("") == ("", "")
  {
  }

  function FieldAt(fields: seq<Field>, i: nat): string {
    if i < |fields| then Meaning(fields[i]) else ""
  }

  /** An envelope cut short gives the fields it has and nothing for the others. */
  lemma ShortEnvelopeRead(fields: seq<Field>)
    requires |fields| <= 10 && forall f <- fields :: FieldSurvives(f)
    ensures EnvelopeOf(Sequence(fields)) ==
            Headers(FieldAt(fields, 1), FieldAt(fields, 2), FieldAt(fields, 5), FieldAt(fields, 0), FieldAt(fields, 9))
  {
    hide ReadFields, Sequence, Meaning, FieldSurvives;
    var text := Sequence(fields);
    SequenceRead(fields, "");
    assert text + "" == text;
    NothingMore(text, |fields|, 10 - |fields|);
    FieldCount(text, 10);
  }

  // ---------- spaces around a list of addresses ----------

  lemma {:induction false} StripsFront(pad: string, text: string)
    requires forall c <- pad :: IsSpace(c)
    ensures Strip(pad + text) == Strip(text)
  {
    if pad == "" {
      assert pad + text == text;
    } else {
      assert pad[0] in pad && (pad + text)[1..] == pad[1..] + text;
      StripsFront(pad[1..], text);
    }
  }

  lemma {:induction false} StripsBack(text: string, pad: string)
    requires forall c <- pad :: IsSpace(c)
    ensures Strip(text + pad) == Strip(text)
    decreases |text|, |pad|
  {
    if pad == "" {
      assert text + pad == text;
    } else if text == "" {
      assert text + pad == pad + "";
      StripsFront(pad, "");
    } else if IsSpace(text[0]) {
      assert (text + pad)[1..] == text[1..] + pad;
      StripsBack(text[1..], pad);
    } else {
      assert pad[|pad| - 1] in pad;
      assert (text + pad)[..|text + pad| - 1] == text + pad[..|pad| - 1];
      StripsBack(text, pad[..|pad| - 1]);
    }
  }

  /** Spaces around a list of addresses make no difference. */
  lemma PaddedAddresses(before: string, list: string, behind: string)
    requires (forall c <- before :: IsSpace(c)) && forall c <- behind :: IsSpace(c)
    ensures FirstAddress(before + list + behind) == FirstAddress(list)
  {
    hide Strip;
    StripsBack(before + list, behind);
    StripsFront(before, list);
  }
}
