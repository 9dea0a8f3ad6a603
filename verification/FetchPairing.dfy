/**
 Pairing message bodies with their identifiers in a FETCH response: imap/client.py lines 687-723 and
 imap/_parsing.py lines 322-364. Text is already decoded; a body is opaque.
 */
module FetchPairing {
  import opened Outcome
  import opened Text
  import opened Decimal

  /** What imaplib hands over: a header with the literal that followed it, a bare line, or something
      that is neither. */
  datatype Item = Literal(header: string, body: string) | Line(text: string) | Strange

  // ---------- reading an identifier ----------

  /** The text after the first occurrence of `mark`. */
  function After(text: string, mark: string): Option<string>
    decreases |text|
  {
    if mark <= text then Some(text[|mark|..])
    else if text == "" then None
    else After(text[1..], mark)
  }

  function Before(text: string, stop: char): Option<string> {
    if text == "" then None
    else if text[0] == stop then Some("")
    else match Before(text[1..], stop)
      case None => None
      case Some(rest) => Some([text[0]] + rest)
  }

  function UidInHeader(header: string): Option<nat> {
    match After(header, "(UID ")
    case None => None
    case Some(rest) =>
      var word := if Before(rest, ' ').Some? then Before(rest, ' ') else Before(rest, ')');
      if word.None? then None else Parse(RightStrip(word.value, ')'))
  }

  function Leading(text: string, p: char -> bool): (n: nat)
    ensures n <= |text| && (n < |text| ==> !p(text[n])) && forall i :: 0 <= i < n ==> p(text[i])
  {
    if text == "" || !p(text[0]) then 0 else 1 + Leading(text[1..], p)
  }

  /** `UID\s+(\d+)` at the start of the text. */
  function UidHere(text: string): Option<nat> {
    if !("UID" <= text) then None
    else
      var spaces := Leading(text[3..], IsSpace);
      var word := text[3 + spaces..];
      var digits := Leading(word, IsDigit);
      if spaces == 0 || digits == 0 then None else Some(Value(word[..digits]))
  }

  /** The leftmost match anywhere in the text. */
  function UidInTrailer(text: string): Option<nat> {
    if UidHere(text).Some? then UidHere(text)
    else if text == "" then None
    else UidInTrailer(text[1..])
  }

  // ---------- the pairing loop ----------

  type Message = (nat, string)

  /** What one item adds, given the body still waiting for its identifier, and what is waiting then. */
  function Step(item: Item, pending: Option<string>): (seq<Message>, Option<string>) {
    match item
    case Literal(header, body) => (
      match UidInHeader(header)
      case Some(uid) => ([(uid, body)], None)
      case None => ([], Some(body)))
    case Line(text) => (
      match pending
      case None => ([], None)
      case Some(body) =>
        match UidInTrailer(text)
        case Some(uid) => ([(uid, body)], None)
        case None => ([], None))
    case Strange => ([], None)
  }

  function Paired(data: seq<Item>, pending: Option<string>): seq<Message>
    decreases |data|
  {
    if data == [] then []
    else
      var (now, waiting) := Step(data[0], pending);
      now + Paired(data[1..], waiting)
  }

  lemma PairedStep(data: seq<Item>, k: nat, pending: Option<string>, sofar: seq<Message>)
    requires k < |data|
    ensures var (now, waiting) := Step(data[k], pending);
            sofar + Paired(data[k..], pending) == (sofar + now) + Paired(data[k + 1..], waiting)
            && Paired(data[k..], pending) == now + Paired(data[k + 1..], waiting)
  {
    hide Step;
    assert data[k..][0] == data[k] && data[k..][1..] == data[k + 1..];
  }

  method FetchMessages(data: seq<Item>) returns (result: seq<Message>)
    ensures result == Paired(data, None)
  {
    hide UidInHeader, UidInTrailer, Paired;
    result := [];
    var pending := None;
    assert data[0..] == data;
    for k := 0 to |data|
      invariant result + Paired(data[k..], pending) == Paired(data, None)
    {
      var item := data[k];
      PairedStep(data, k, pending, result);
      if item.Literal? {
        var uid := UidInHeader(item.header);
        if uid.Some? {
          result := result + [(uid.value, item.body)];
          pending := None;
        } else {
          pending := Some(item.body);
        }
      } else if item.Line? && pending.Some? {
        var uid := UidInTrailer(item.text);
        if uid.Some? { result := result + [(uid.value, pending.value)]; }
        pending := None;
      } else {
        pending := None;
      }
    }
    NothingLeft(data);
  }

  lemma NothingLeft(data: seq<Item>)
    ensures forall pending :: Paired(data[|data|..], pending) == []
  {
  }

  // ---------- a body never gets another message's identifier ----------

  /** The message the literal at `k` makes, going by its own header or the line right behind it. */
  function Claim(data: seq<Item>, k: nat): seq<Message>
    requires k < |data|
  {
    if !data[k].Literal? then []
    else if UidInHeader(data[k].header).Some? then [(UidInHeader(data[k].header).value, data[k].body)]
    else if k + 1 < |data| && data[k + 1].Line? && UidInTrailer(data[k + 1].text).Some? then
      [(UidInTrailer(data[k + 1].text).value, data[k].body)]
    else []
  }

  function Claims(data: seq<Item>, k: nat): seq<Message>
    requires k <= |data|
    decreases |data| - k
  {
    if k == |data| then [] else Claim(data, k) + Claims(data, k + 1)
  }

  function Waiting(data: seq<Item>, k: nat): Option<string>
    requires k <= |data|
  {
    if k > 0 && data[k - 1].Literal? && UidInHeader(data[k - 1].header).None? then Some(data[k - 1].body) else None
  }

  function Late(data: seq<Item>, k: nat): seq<Message>
    requires k <= |data|
  {
    if k < |data| && data[k].Line? && Waiting(data, k).Some? && UidInTrailer(data[k].text).Some? then
      [(UidInTrailer(data[k].text).value, Waiting(data, k).value)]
    else []
  }

  /** Main result, for any data whatever: the loop yields, in order, exactly the messages that each
      literal claims by its own header or the line right behind it. */
  lemma PairsOnlyNeighbours(data: seq<Item>)
    ensures Paired(data, None) == Claims(data, 0)
  {
    PairsFrom(data, 0);
    assert data[0..] == data;
  }

  lemma {:induction false} PairsFrom(data: seq<Item>, k: nat)
    requires k <= |data|
    ensures Paired(data[k..], Waiting(data, k)) == Late(data, k) + Claims(data, k)
    decreases |data| - k
  {
    hide UidInHeader, UidInTrailer, Step, Paired, Waiting, Late, Claim;
    if k == |data| {
      NothingLeft(data);
      NothingLate(data);
    } else {
      PairedStep(data, k, Waiting(data, k), []);
      StepIs(data, k);
      PairsFrom(data, k + 1);
      Reassociate(Step(data[k], Waiting(data, k)).0, Late(data, k + 1), Claims(data, k + 1));
      Reassociate(Late(data, k), Claim(data, k), Claims(data, k + 1));
    }
  }

  lemma NothingLate(data: seq<Item>)
    ensures Late(data, |data|) == []
  {
  }

  lemma Reassociate(a: seq<Message>, b: seq<Message>, c: seq<Message>)
    ensures a + (b + c) == (a + b) + c && [] + a == a
  {
  }

  lemma StepIs(data: seq<Item>, k: nat)
    requires k < |data|
    ensures var (now, waiting) := Step(data[k], Waiting(data, k));
            waiting == Waiting(data, k + 1) && now + Late(data, k + 1) == Late(data, k) + Claim(data, k)
  {
    hide UidInHeader, UidInTrailer;
  }

  // ---------- both server shapes ----------

  /** How a server reports one message: with the identifier right after the parenthesis, or in the line
      after the literal. Any further lines may follow. */
  datatype Report =
    | HeaderFirst(number: nat, uid: nat, attributes: string, body: string, more: seq<string>)
    | TrailingUid(number: nat, uid: nat, attributes: string, closing: string, body: string, more: seq<string>)

  function Lines(texts: seq<string>): seq<Item> {
    seq(|texts|, i requires 0 <= i < |texts| => Line(texts[i]))
  }

  function Header(r: Report): string {
    Print(r.number) + match r
      case HeaderFirst(_, uid, attributes, _, _) => " (UID " + Print(uid) + " " + attributes
      case TrailingUid(_, _, attributes, _, _, _) => " (" + attributes
  }

  function Items(r: Report): seq<Item> {
    match r
    case HeaderFirst(_, _, _, body, more) => [Literal(Header(r), body)] + Lines(more)
    case TrailingUid(_, uid, _, closing, body, more) => [Literal(Header(r), body), Line(" UID " + Print(uid) + closing)] + Lines(more)
  }

  function Response(reports: seq<Report>): seq<Item> {
    if reports == [] then [] else Items(reports[0]) + Response(reports[1..])
  }

  function Sent(reports: seq<Report>): seq<Message> {
    seq(|reports|, i requires 0 <= i < |reports| => (reports[i].uid, reports[i].body))
  }

  /** A report of the second shape mentions no identifier early and ends it before anything else. */
  predicate WellFormed(r: Report) {
    r.TrailingUid? ==> After(" (" + r.attributes, "(UID ").None? && (r.closing == "" || !IsDigit(r.closing[0]))
  }

  lemma {:induction false} AfterSkips(prefix: string, rest: string, mark: string)
    requires mark != "" && mark[0] !in prefix
    ensures After(prefix + rest, mark) == After(rest, mark)
  {
    if prefix == "" {
      assert prefix + rest == rest;
    } else {
      assert (prefix + rest)[0] == prefix[0] && (prefix + rest)[1..] == prefix[1..] + rest;
      AfterSkips(prefix[1..], rest, mark);
    }
  }

  lemma {:induction false} BeforeFirst(word: string, stop: char, rest: string)
    requires stop !in word
    ensures Before(word + [stop] + rest, stop) == Some(word)
  {
    var text := word + [stop] + rest;
    if word != "" {
      assert text[0] == word[0] && text[1..] == word[1..] + [stop] + rest;
      BeforeFirst(word[1..], stop, rest);
      assert word == [word[0]] + word[1..];
    } else {
      assert text[0] == stop;
    }
  }

  lemma NumberRead(number: string, digits: string, attributes: string)
    requires AllDigits(number) && AllDigits(digits) && digits != ""
    ensures UidInHeader(number + " (UID " + digits + " " + attributes) == Parse(digits)
  {
    var tail := digits + " " + attributes;
    var marked := "(UID " + tail;
    assert forall c <- number + " " :: c != '(';
    AfterSkips(number + " ", marked, "(UID ");
    assert number + " (UID " + digits + " " + attributes == number + " " + marked;
    assert marked[5..] == tail;
    assert ' ' !in digits;
    BeforeFirst(digits, ' ', attributes);
    assert tail == digits + [' '] + attributes;
    assert digits[|digits| - 1] != ')';
  }

  lemma HeaderRead(r: Report)
    requires WellFormed(r)
    ensures UidInHeader(Header(r)) == if r.HeaderFirst? then Some(r.uid) else None
  {
    hide Print, Parse, After, Value;
    match r {
      case HeaderFirst(number, uid, attributes, _, _) =>
        NumberRead(Print(number), Print(uid), attributes);
        ParsePrint(uid);
        assert Header(r) == Print(number) + " (UID " + Print(uid) + " " + attributes;
      case TrailingUid(number, _, attributes, _, _, _) =>
        assert forall c <- Print(number) :: IsDigit(c);
        AfterSkips(Print(number), " (" + attributes, "(UID ");
    }
  }

  lemma SpaceThenDigits(word: string, n: nat)
    requires n <= |word| && (forall i :: 0 <= i < n ==> IsDigit(word[i])) && (n < |word| ==> !IsDigit(word[n])) && n > 0
    ensures Leading(" " + word, IsSpace) == 1 && Leading(word, IsDigit) == n
  {
    LeadingIs(" " + word, 1, IsSpace);
    LeadingIs(word, n, IsDigit);
  }

  lemma DigitsHere(digits: string, closing: string)
    requires AllDigits(digits) && digits != "" && (closing == "" || !IsDigit(closing[0]))
    ensures UidHere("UID " + (digits + closing)) == Some(Value(digits))
  {
    hide Value, Leading;
    var word := digits + closing;
    SpaceThenDigits(word, |digits|);
    assert ("UID " + word)[3..] == " " + word;
    assert ("UID " + word)[4..] == word && word[..|digits|] == digits;
  }

  lemma OneFurther(text: string)
    requires text != "" && text[0] != 'U' && UidHere(text[1..]).Some?
    ensures UidInTrailer(text) == UidHere(text[1..])
  {
    assert !("UID" <= text);
  }

  lemma DigitsRead(digits: string, closing: string)
    requires AllDigits(digits) && digits != "" && (closing == "" || !IsDigit(closing[0]))
    ensures UidInTrailer(" UID " + digits + closing) == Some(Value(digits))
  {
    hide UidHere, UidInTrailer, Value;
    DigitsHere(digits, closing);
    var text := " UID " + digits + closing;
    assert text[0] == ' ' && text[1..] == "UID " + (digits + closing);
    OneFurther(text);
  }

  lemma TrailerRead(uid: nat, closing: string)
    requires closing == "" || !IsDigit(closing[0])
    ensures UidInTrailer(" UID " + Print(uid) + closing) == Some(uid)
  {
    hide Print, Value, UidInTrailer;
    DigitsRead(Print(uid), closing);
    ParsePrint(uid);
  }

  lemma {:induction false} LeadingIs(text: string, n: nat, p: char -> bool)
    requires n <= |text| && (forall i :: 0 <= i < n ==> p(text[i])) && (n < |text| ==> !p(text[n]))
    ensures Leading(text, p) == n
  {
    if n > 0 { LeadingIs(text[1..], n - 1, p); }
  }

  lemma PairedCons(item: Item, data: seq<Item>, pending: Option<string>)
    ensures Paired([item] + data, pending) == Step(item, pending).0 + Paired(data, Step(item, pending).1)
  {
    hide Step;
    assert ([item] + data)[0] == item && ([item] + data)[1..] == data;
  }

  lemma {:induction false} LinesIgnored(texts: seq<string>, data: seq<Item>)
    ensures Paired(Lines(texts) + data, None) == Paired(data, None)
    decreases |texts|
  {
    hide Paired;
    if texts == [] {
      assert Lines(texts) + data == data;
    } else {
      var rest := Lines(texts[1..]) + data;
      assert Lines(texts) + data == [Line(texts[0])] + rest;
      PairedCons(Line(texts[0]), rest, None);
      LinesIgnored(texts[1..], data);
    }
  }

  lemma HeaderFirstRead(r: Report, data: seq<Item>)
    requires r.HeaderFirst? && UidInHeader(Header(r)) == Some(r.uid)
    ensures Paired(Items(r) + data, None) == [(r.uid, r.body)] + Paired(data, None)
  {
    hide UidInHeader, Header, Lines, Paired;
    var rest := Lines(r.more) + data;
    assert Items(r) + data == [Literal(Header(r), r.body)] + rest;
    PairedCons(Literal(Header(r), r.body), rest, None);
    LinesIgnored(r.more, data);
  }

  lemma TrailingRead(r: Report, data: seq<Item>)
    requires r.TrailingUid? && UidInHeader(Header(r)).None? && UidInTrailer(" UID " + Print(r.uid) + r.closing) == Some(r.uid)
    ensures Paired(Items(r) + data, None) == [(r.uid, r.body)] + Paired(data, None)
  {
    hide UidInHeader, UidInTrailer, Header, Lines, Paired, Print;
    var line := Line(" UID " + Print(r.uid) + r.closing);
    var rest := Lines(r.more) + data;
    assert Items(r) + data == [Literal(Header(r), r.body)] + ([line] + rest);
    PairedCons(Literal(Header(r), r.body), [line] + rest, None);
    PairedCons(line, rest, Some(r.body));
    LinesIgnored(r.more, data);
  }

  lemma ReportRead(r: Report, data: seq<Item>)
    requires WellFormed(r)
    ensures Paired(Items(r) + data, None) == [(r.uid, r.body)] + Paired(data, None)
  {
    HeaderRead(r);
    hide UidInHeader, UidInTrailer, Header, Items, Paired, Print;
    if r.HeaderFirst? {
      HeaderFirstRead(r, data);
    } else {
      TrailerRead(r.uid, r.closing);
      TrailingRead(r, data);
    }
  }

  /** Main result: whatever way the two shapes are interleaved, the sent messages come back in order. */
  lemma {:induction false} ResponsesComeBack(reports: seq<Report>)
    requires forall r <- reports :: WellFormed(r)
    ensures Paired(Response(reports), None) == Sent(reports)
    decreases |reports|
  {
    hide Items, WellFormed, Paired;
    if reports == [] {
      assert Paired([], None) == [] by {
        var none: seq<Item> := [];
        NothingLeft(none);
        assert none[|none|..] == [];
      }
    } else {
      ReportRead(reports[0], Response(reports[1..]));
      ResponsesComeBack(reports[1..]);
      assert Sent(reports) == [(reports[0].uid, reports[0].body)] + Sent(reports[1..]);
    }
  }
}
