/** Fencing untrusted text in a prompt: core/prompt_blocks.py lines 30-45. */
module PromptSection {
  import opened Outcome

  const MIN_FENCE := 4

  /** How many backticks the text starts with. */
  function Run(text: string): (n: nat)
    ensures n <= |text|
    ensures forall i :: 0 <= i < n ==> text[i] == '`'
    ensures n < |text| ==> text[n] != '`'
  {
    if text == "" || text[0] != '`' then 0 else 1 + Run(text[1..])
  }

  function LongestRun(text: string): nat {
    if text == "" then 0
    else
      var rest := LongestRun(text[1..]);
      if Run(text) > rest then Run(text) else rest
  }

  function Fence(n: nat): (fence: string)
    ensures |fence| == n && forall i :: 0 <= i < n ==> fence[i] == '`'
  {
    seq(n, i => '`')
  }

  function FenceLength(content: string): nat {
    if LongestRun(content) + 1 > MIN_FENCE then LongestRun(content) + 1 else MIN_FENCE
  }

  function Section(name: string, content: string): string {
    var fence := Fence(FenceLength(content));
    fence + name + "\n" + content + "\n" + fence
  }

  // ---------- a reader of sections ----------

  /** Where `mark` first occurs. */
  function IndexOf(text: string, mark: string): (i: Option<nat>)
    ensures i.Some? ==> i.value + |mark| <= |text| && text[i.value..i.value + |mark|] == mark
    decreases |text|
  {
    if mark <= text then Some(0)
    else if text == "" then None
    else match IndexOf(text[1..], mark)
      case None => None
      case Some(i) =>
        assert text[1..][i..i + |mark|] == text[i + 1..i + 1 + |mark|];
        Some(i + 1)
  }

  /** Reads the fence, the name up to the end of its line, and everything up to the first line that
      starts with the fence. Also says what follows the closing fence. */
  function ReadSection(text: string): Option<(string, string, string)> {
    var fence := text[..Run(text)];
    var head := text[Run(text)..];
    match IndexOf(head, "\n")
    case None => None
    case Some(eol) =>
      var body := head[eol + 1..];
      match IndexOf(body, "\n" + fence)
      case None => None
      case Some(end) => Some((head[..eol], body[..end], body[end + 1 + |fence|..]))
  }

  lemma {:induction false} RunIs(text: string, n: nat)
    requires n <= |text| && forall k :: 0 <= k < n ==> text[k] == '`'
    ensures n <= Run(text)
    ensures n < |text| && text[n] != '`' ==> Run(text) == n
  {
    if n > 0 { RunIs(text[1..], n - 1); }
  }

  lemma {:induction false} RunsAreShorter(text: string, i: nat, n: nat)
    requires i + n <= |text| && forall k :: i <= k < i + n ==> text[k] == '`'
    ensures n <= LongestRun(text)
  {
    if i == 0 {
      RunIs(text, n);
    } else {
      RunsAreShorter(text[1..], i - 1, n);
    }
  }

  /** A stretch longer than every run contains something else. */
  lemma SomethingElse(text: string, i: nat, n: nat)
    requires i + n <= |text| && n > LongestRun(text)
    ensures exists k :: i <= k < i + n && text[k] != '`'
  {
    if forall k :: i <= k < i + n ==> text[k] == '`' {
      RunsAreShorter(text, i, n);
    }
  }

  lemma {:induction false} FirstIs(text: string, mark: string, at: nat)
    requires at + |mark| <= |text| && text[at..at + |mark|] == mark
    requires forall j :: 0 <= j < at ==> !(mark <= text[j..])
    ensures IndexOf(text, mark) == Some(at)
    decreases at
  {
    if at == 0 {
      assert text[0..|mark|] == text[..|mark|];
    } else {
      assert text[0..] == text;
      assert text[1..][at - 1..at - 1 + |mark|] == text[at..at + |mark|];
      forall j | 0 <= j < at - 1 ensures !(mark <= text[1..][j..]) {
        assert text[1..][j..] == text[j + 1..];
      }
      FirstIs(text[1..], mark, at - 1);
    }
  }

  /** No line inside the content starts with the fence. */
  lemma FenceClosesLast(content: string, n: nat, rest: string, j: nat)
    requires n > LongestRun(content) && j < |content|
    ensures !("\n" + Fence(n) <= (content + "\n" + Fence(n) + rest)[j..])
  {
    var text, mark := content + "\n" + Fence(n) + rest, "\n" + Fence(n);
    var k := |content|;
    if j + 1 + n <= |content| {
      SomethingElse(content, j + 1, n);
      k :| j + 1 <= k < j + 1 + n && content[k] != '`';
    }
    assert text[k] != '`' && text[j..][k - j] == text[k];
    assert k > j ==> mark[k - j] == '`';
  }

  lemma RunOfFence(n: nat, rest: string)
    requires rest == "" || rest[0] != '`'
    ensures Run(Fence(n) + rest) == n
  {
    RunIs(Fence(n) + rest, n);
  }

  lemma NameEnds(name: string, body: string)
    requires '\n' !in name
    ensures IndexOf(name + "\n" + body, "\n") == Some(|name|)
  {
    var head := name + "\n" + body;
    forall j | 0 <= j < |name| ensures !("\n" <= head[j..]) {
      assert head[j..][0] == name[j] && name[j] in name;
    }
    assert head[|name|..|name| + 1] == "\n";
    FirstIs(head, "\n", |name|);
  }

  lemma ContentEnds(content: string, n: nat, rest: string)
    requires n > LongestRun(content)
    ensures IndexOf(content + "\n" + Fence(n) + rest, "\n" + Fence(n)) == Some(|content|)
  {
    var body, mark := content + "\n" + Fence(n) + rest, "\n" + Fence(n);
    forall j | 0 <= j < |content| ensures !(mark <= body[j..]) {
      FenceClosesLast(content, n, rest, j);
    }
    assert body == content + mark + rest;
    assert body[|content|..|content| + |mark|] == mark;
    FirstIs(body, mark, |content|);
  }

  /** Main result: whatever the content, a reader recovers the name, the content and what follows, so the
      content can neither end its block early nor reach into the text behind it. */
  lemma SectionReadsBack(name: string, content: string, rest: string)
    requires '\n' !in name && (name == "" || name[0] != '`')
    ensures ReadSection(Section(name, content) + rest) == Some((name, content, rest))
  {
    hide *;
    var n := FenceLength(content);
    Enough(content);
    var body := content + "\n" + Fence(n) + rest;
    Layout(name, content, rest);
    RunOfFence(n, name + "\n" + body);
    NameEnds(name, body);
    ContentEnds(content, n, rest);
    ReadsAs(Fence(n), name, body, content, rest);
  }

  lemma Layout(name: string, content: string, rest: string)
    ensures var fence := Fence(FenceLength(content));
            Section(name, content) + rest == fence + (name + "\n" + (content + "\n" + fence + rest))
    ensures var head := name + "\n" + (content + "\n" + Fence(FenceLength(content)) + rest);
            '\n' !in name && (name == "" || name[0] != '`') ==> head[0] != '`'
  {
    hide FenceLength, Fence;
  }

  lemma ReadsAs(fence: string, name: string, body: string, content: string, rest: string)
    requires Run(fence + (name + "\n" + body)) == |fence|
    requires IndexOf(name + "\n" + body, "\n") == Some(|name|)
    requires body == content + "\n" + fence + rest && IndexOf(body, "\n" + fence) == Some(|content|)
    ensures ReadSection(fence + (name + "\n" + body)) == Some((name, content, rest))
  {
    hide IndexOf, Run;
    var head := name + "\n" + body;
    var text := fence + head;
    assert text[..|fence|] == fence && text[|fence|..] == head;
    assert head[..|name|] == name && head[|name| + 1..] == body;
    assert body[..|content|] == content && body[|content| + 1 + |fence|..] == rest;
  }

  lemma {:induction false} RunFound(text: string) returns (i: nat)
    ensures i + LongestRun(text) <= |text| && forall k :: i <= k < i + LongestRun(text) ==> text[k] == '`'
  {
    if text == "" {
      i := 0;
    } else if LongestRun(text) == Run(text) {
      i := 0;
    } else {
      i := RunFound(text[1..]);
      assert forall k :: i <= k < i + LongestRun(text) ==> text[k + 1] == text[1..][k];
      i := i + 1;
    }
  }

  /** As many backticks as the content has in a row. */
  ghost predicate InARow(content: string, i: nat, n: nat) {
    i + n <= |content| && forall k :: i <= k < i + n ==> content[k] == '`'
  }

  /** The fence is no longer than it has to be: four backticks, or as few more as the content does not have in a row. */
  lemma FenceShortest(content: string, n: nat)
    requires n >= 4
    ensures n >= FenceLength(content) <==> forall i: nat :: !InARow(content, i, n)
    ensures FenceLength(content) >= 4
  {
    if n < FenceLength(content) {
      var i := RunFound(content);
      assert InARow(content, i, n);
    } else if i: nat :| InARow(content, i, n) {
      RunsAreShorter(content, i, n);
    }
  }

  lemma Enough(content: string)
    ensures FenceLength(content) > LongestRun(content) && FenceLength(content) >= MIN_FENCE
  {
  }
}
