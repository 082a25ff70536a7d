/**
 * Script-issue detection shared by `processHTMLContent` and `processJSContent`
 * (UploadSection.tsx): for each signature of the issue table a global regular expression
 * is built once, then `test`ed against every line of the newline-split original text.
 * A global expression remembers `lastIndex` between calls, so after a hit the next line
 * is searched only from the index where that hit ended.
 *
 * Only the two shapes of pattern the issue table uses are read: a pattern that opens with
 * the end-of-input anchor `$` followed by something that consumes a character, which can
 * never match, and a pattern made of letters, digits, `-` and `=`, which matches itself.
 */
module Detection {
  import opened Wrappers
  import opened Text
  import opened MigrationTypes

  /** What a signature's pattern matches. */
  datatype Signature = NeverMatches | Literal(text: string)

  /** Characters that stand for themselves in a pattern and outside a class. */
  predicate IsPlainChar(c: char) {
    ('a' <= c <= 'z') || ('A' <= c <= 'Z') || ('0' <= c <= '9') || c == '-' || c == '='
  }

  /**
   * Reads a pattern of one of the two supported shapes: `$` followed by `.` or by an
   * escaped `(` (both need a character after the end of the input), or plain characters.
   */
  function ParseSignature(pattern: string): (sig: Option<Signature>)
    ensures sig == Some(NeverMatches) ==> |pattern| >= 2 && pattern[0] == '$'
    ensures (sig.Some? && sig.value.Literal?) <==> forall c <- pattern :: IsPlainChar(c)
    ensures sig.Some? && sig.value.Literal? ==> sig.value.text == pattern
  {
    if |pattern| >= 2 && pattern[0] == '$' && (pattern[1] == '.' || (|pattern| >= 3 && pattern[1] == '\\' && pattern[2] == '(')) then
      assert pattern[0] in pattern && !IsPlainChar(pattern[0]);
      Some(NeverMatches)
    else if forall c <- pattern :: IsPlainChar(c) then Some(Literal(pattern))
    else None
  }

  /** The issue table has twenty entries, each with a message. */
  lemma JsIssueCount()
    ensures |BootstrapJsIssues| == 20
    ensures forall i | 0 <= i < |BootstrapJsIssues| :: BootstrapJsIssues[i].message != ""
  {
  }

  /** The ten plugin patterns and the three `$(…)` patterns never match. */
  lemma AnchoredSignaturesNeverMatch()
    ensures forall i | 0 <= i < 10 || 15 <= i < 18 ::
      ParseSignature(BootstrapJsIssues[i].pattern) == Some(NeverMatches)
  {
  }

  /** The five `data-*=` patterns, `affix` and `data-spy` are literal. */
  lemma RemainingSignaturesLiteral()
    ensures forall i | 10 <= i < 15 || 18 <= i < 20 ::
      ParseSignature(BootstrapJsIssues[i].pattern) == Some(Literal(BootstrapJsIssues[i].pattern))
  {
  }

  /** Every signature of a table can be read. */
  predicate Readable(table: seq<JsIssue>) {
    forall j | 0 <= j < |table| :: ParseSignature(table[j].pattern).Some?
  }

  lemma JsIssuesReadable()
    ensures Readable(BootstrapJsIssues)
  {
    JsIssueCount();
    AnchoredSignaturesNeverMatch();
    RemainingSignaturesLiteral();
  }

  /** What `regex.test(line)` returns, with the `lastIndex` it leaves behind. */
  datatype TestOutcome = TestOutcome(found: bool, lastIndex: nat)

  /**
   * `RegExp.prototype.test` on a global expression: the search starts at `lastIndex`; a
   * `lastIndex` past the end of the line fails at once. A hit moves `lastIndex` to the end
   * of the match; a miss resets it to 0.
   */
  function Test(sig: Signature, line: string, lastIndex: nat): (o: TestOutcome)
    ensures o.found ==>
      && sig.Literal?
      && lastIndex + |sig.text| <= o.lastIndex <= |line|
      && At(line, o.lastIndex - |sig.text|, sig.text)
      && forall k: nat :: lastIndex <= k < o.lastIndex - |sig.text| ==> !At(line, k, sig.text)
    ensures !o.found ==> o.lastIndex == 0
    ensures !o.found && sig.Literal? && lastIndex <= |line| ==>
      forall k: nat :: lastIndex <= k ==> !At(line, k, sig.text)
  {
    match sig
    case NeverMatches => TestOutcome(false, 0)
    case Literal(t) =>
      if lastIndex > |line| then TestOutcome(false, 0)
      else
        var k := IndexOfFrom(line, t, lastIndex);
        if k < 0 then TestOutcome(false, 0) else TestOutcome(true, k + |t|)
  }

  /** An issue found on a line (numbered from 1). */
  datatype DetectedIssue = DetectedIssue(message: string, line: nat)

  /** The issues one signature yields from line `i` on, `lastIndex` carried between lines. */
  function ScanLines(sig: Signature, message: string, lines: seq<string>, i: nat, lastIndex: nat)
    : (found: seq<DetectedIssue>)
    ensures forall f <- found :: f.message == message && i + 1 <= f.line <= |lines|
    ensures i <= |lines| ==> |found| <= |lines| - i
    decreases |lines| - i
  {
    if i >= |lines| then []
    else
      var o := Test(sig, lines[i], lastIndex);
      (if o.found then [DetectedIssue(message, i + 1)] else [])
      + ScanLines(sig, message, lines, i + 1, o.lastIndex)
  }

  /** One line of the scan: its own hit, if any, then the rest from the `lastIndex` it leaves. */
  lemma ScanLinesStep(sig: Signature, message: string, lines: seq<string>, i: nat, lastIndex: nat)
    requires i < |lines|
    ensures var o := Test(sig, lines[i], lastIndex);
      ScanLines(sig, message, lines, i, lastIndex)
      == (if o.found then [DetectedIssue(message, i + 1)] else [])
         + ScanLines(sig, message, lines, i + 1, o.lastIndex)
  {
  }

  /** The issues one table entry yields over a text (a pattern that cannot be read, none). */
  function EntryIssues(content: string, entry: JsIssue): seq<DetectedIssue> {
    match ParseSignature(entry.pattern)
    case None => []
    case Some(sig) => ScanLines(sig, entry.message, Split(content, '\n'), 0, 0)
  }

  /** The issues of a table over a text: signature by signature, each over every line. */
  function DetectIssues(content: string, table: seq<JsIssue>): seq<DetectedIssue> {
    if |table| == 0 then []
    else DetectIssues(content, table[..|table| - 1]) + EntryIssues(content, table[|table| - 1])
  }

  /** Line numbers strictly increase along the list. */
  predicate LinesIncrease(found: seq<DetectedIssue>) {
    forall a, b | 0 <= a < b < |found| :: found[a].line < found[b].line
  }

  /** Lines are reported in increasing order, so no line twice for one signature. */
  lemma {:induction false} ScanLinesIncreasing(sig: Signature, message: string, lines: seq<string>, i: nat, lastIndex: nat)
    ensures LinesIncrease(ScanLines(sig, message, lines, i, lastIndex))
    decreases |lines| - i
  {
    if i < |lines| {
      var o := Test(sig, lines[i], lastIndex);
      ScanLinesIncreasing(sig, message, lines, i + 1, o.lastIndex);
      var rest := ScanLines(sig, message, lines, i + 1, o.lastIndex);
      var head: seq<DetectedIssue> := if o.found then [DetectedIssue(message, i + 1)] else [];
      var found := head + rest;
      assert ScanLines(sig, message, lines, i, lastIndex) == found;
      forall a, b | 0 <= a < b < |found| ensures found[a].line < found[b].line {
        if a < |head| {
          assert found[a] == head[a] && found[a].line == i + 1;
          assert found[b] == rest[b - |head|];
          assert found[b] in rest;
          assert found[b].line >= i + 2;
        } else {
          assert found[a] == rest[a - |head|] && found[b] == rest[b - |head|];
          assert rest[a - |head|].line < rest[b - |head|].line;
        }
      }
    }
  }

  /** A reported line holds the signature's text literally. */
  lemma {:induction false} ScanLinesSound(sig: Signature, message: string, lines: seq<string>, i: nat, lastIndex: nat)
    ensures forall f <- ScanLines(sig, message, lines, i, lastIndex) ::
      sig.Literal? && Contains(lines[f.line - 1], sig.text)
    decreases |lines| - i
  {
    if i < |lines| {
      var o := Test(sig, lines[i], lastIndex);
      ScanLinesSound(sig, message, lines, i + 1, o.lastIndex);
      if o.found {
        ContainsIff(lines[i], sig.text);
      }
    }
  }

  /** A signature that never matches reports nothing. */
  lemma {:induction false} NeverMatchesSilent(message: string, lines: seq<string>, i: nat, lastIndex: nat)
    ensures ScanLines(NeverMatches, message, lines, i, lastIndex) == []
    decreases |lines| - i
  {
    if i < |lines| {
      NeverMatchesSilent(message, lines, i + 1, 0);
    }
  }

  /**
   * A line holding the text is reported when the search reaches it from index 0, which it
   * does whenever the line before it does not hold the text (or it is the first line).
   */
  lemma {:induction false} ScanLinesFindsFresh(t: string, message: string, lines: seq<string>, i: nat, lastIndex: nat, n: nat)
    requires i <= n < |lines| && Contains(lines[n], t)
    requires n == i ==> lastIndex == 0
    requires n > i ==> !Contains(lines[n - 1], t)
    ensures DetectedIssue(message, n + 1) in ScanLines(Literal(t), message, lines, i, lastIndex)
    decreases |lines| - i
  {
    var o := Test(Literal(t), lines[i], lastIndex);
    if n == i {
      ContainsIff(lines[i], t);
    } else {
      if n == i + 1 {
        ContainsIff(lines[i], t);
        assert !o.found;
      }
      ScanLinesFindsFresh(t, message, lines, i + 1, o.lastIndex, n);
    }
  }

  /** The first line holding the text is always reported. */
  lemma FirstOccurrenceReported(t: string, message: string, lines: seq<string>, n: nat)
    requires n < |lines| && Contains(lines[n], t)
    requires forall m | 0 <= m < n :: !Contains(lines[m], t)
    ensures DetectedIssue(message, n + 1) in ScanLines(Literal(t), message, lines, 0, 0)
  {
    ScanLinesFindsFresh(t, message, lines, 0, 0, n);
  }

  /**
   * The carried `lastIndex` hides hits: after `data-spy` ends at index 10 of the first line,
   * the eight-character second line is not searched at all.
   */
  lemma CarriedIndexHidesSecondLine()
    ensures ScanLines(Literal("data-spy"), "m", ["x data-spy", "data-spy"], 0, 0)
         == [DetectedIssue("m", 1)]
  {
    var lines := ["x data-spy", "data-spy"];
    NotAtByFirst(lines[0], 0, "data-spy");
    NotAtByFirst(lines[0], 1, "data-spy");
    assert At(lines[0], 2, "data-spy");
    assert IndexOfFrom(lines[0], "data-spy", 1) == 2;
    assert IndexOfFrom(lines[0], "data-spy", 0) == 2;
    assert Test(Literal("data-spy"), lines[0], 0) == TestOutcome(true, 10);
    assert Test(Literal("data-spy"), lines[1], 10) == TestOutcome(false, 0);
  }

  /** The text occurs in `line` at or after index `from` (so `from` lies within the line). */
  predicate OccursFrom(line: string, t: string, from: nat) {
    from <= |line| && exists k: nat | from <= k <= |line| :: At(line, k, t)
  }

  /**
   * After a hit on line `i`, line `i + 1` is reported exactly when the text occurs in it at
   * or after the index where that hit ended.
   */
  lemma HitCarriesIndexToNextLine(t: string, message: string, lines: seq<string>, i: nat, lastIndex: nat)
    requires i + 1 < |lines| && Test(Literal(t), lines[i], lastIndex).found
    ensures DetectedIssue(message, i + 2) in ScanLines(Literal(t), message, lines, i, lastIndex)
      <==> OccursFrom(lines[i + 1], t, Test(Literal(t), lines[i], lastIndex).lastIndex)
  {
  }

  /** Detection over a table split in two is the first part's issues, then the second's. */
  lemma {:induction false} DetectIssuesSplit(content: string, a: seq<JsIssue>, b: seq<JsIssue>)
    ensures DetectIssues(content, a + b) == DetectIssues(content, a) + DetectIssues(content, b)
    decreases |b|
  {
    if |b| > 0 {
      var init := b[..|b| - 1];
      assert (a + b)[..|a + b| - 1] == a + init;
      assert (a + b)[|a + b| - 1] == b[|b| - 1];
      DetectIssuesSplit(content, a, init);
    } else {
      assert a + b == a;
    }
  }

  /** An entry fires only when its pattern reads as a literal. */
  predicate FiresAsLiteral(entry: JsIssue) {
    ParseSignature(entry.pattern).Some? && ParseSignature(entry.pattern).value.Literal?
  }

  /**
   * Every detected issue names a line of the text and carries the message of an entry
   * whose pattern reads as a literal.
   */
  lemma {:induction false} DetectIssuesBounds(content: string, table: seq<JsIssue>)
    ensures forall f <- DetectIssues(content, table) ::
      && 1 <= f.line <= |Split(content, '\n')|
      && exists j | 0 <= j < |table| :: table[j].message == f.message && FiresAsLiteral(table[j])
  {
    if |table| > 0 {
      var init := table[..|table| - 1];
      var last := table[|table| - 1];
      DetectIssuesBounds(content, init);
      if ParseSignature(last.pattern) == Some(NeverMatches) {
        NeverMatchesSilent(last.message, Split(content, '\n'), 0, 0);
      }
      forall f <- DetectIssues(content, table)
        ensures 1 <= f.line <= |Split(content, '\n')|
        ensures exists j | 0 <= j < |table| :: table[j].message == f.message && FiresAsLiteral(table[j])
      {
        if f in DetectIssues(content, init) {
          var j :| 0 <= j < |init| && init[j].message == f.message && FiresAsLiteral(init[j]);
          assert table[j] == init[j];
        } else {
          assert last.message == f.message && FiresAsLiteral(last);
        }
      }
    }
  }

  /**
   * Over the issue table, only the five `data-*=` entries, `affix` and `data-spy` can
   * report anything.
   */
  lemma OnlyLiteralEntriesFire(content: string)
    ensures forall f <- DetectIssues(content, BootstrapJsIssues) ::
      exists j | 10 <= j < 15 || 18 <= j < 20 :: BootstrapJsIssues[j].message == f.message
  {
    DetectIssuesBounds(content, BootstrapJsIssues);
    JsIssueCount();
    AnchoredSignaturesNeverMatch();
    forall f <- DetectIssues(content, BootstrapJsIssues)
      ensures exists j | 10 <= j < 15 || 18 <= j < 20 :: BootstrapJsIssues[j].message == f.message
    {
      var j :| 0 <= j < |BootstrapJsIssues| && BootstrapJsIssues[j].message == f.message
        && FiresAsLiteral(BootstrapJsIssues[j]);
      assert 10 <= j < 15 || 18 <= j < 20;
    }
  }
}
