/**
 * The two class-renaming scans of the upload pipeline, one per table entry:
 *
 *  - in markup, the global pattern  class=["'][^"']*\bKEY\b[^"']*["']  whose every match
 *    has its first literal occurrence of KEY replaced (UploadSection.tsx, processHTMLContent);
 *  - in style sheets, the global pattern  \.KEY\b  whose every match becomes  .VALUE
 *    (UploadSection.tsx, processCSSContent).
 *
 * KEY is spliced into the pattern unescaped, so each `.` in it stands for any character
 * other than a line terminator; every other character of the table's keys is literal.
 * A global scan tries start positions left to right and resumes after each match.
 */
module ClassRewrite {
  import opened Wrappers
  import opened Text
  import opened MigrationTypes

  /** One pattern character of a spliced key against one input character. */
  predicate KeyCharMatches(k: char, c: char) {
    if k == '.' then !IsLineTerminator(c) else c == k
  }

  /** The spliced key matches the input at `p`. */
  predicate KeyAt(s: string, p: nat, key: string) {
    p + |key| <= |s| && forall j | 0 <= j < |key| :: KeyCharMatches(key[j], s[p + j])
  }

  /** A key with no `.` matches exactly where it occurs literally. */
  lemma KeyAtLiteral(s: string, p: nat, key: string)
    requires '.' !in key
    ensures KeyAt(s, p, key) <==> At(s, p, key)
  {
    if KeyAt(s, p, key) {
      assert s[p..p + |key|] == key by {
        forall j | 0 <= j < |key| ensures s[p..p + |key|][j] == key[j] {
          assert KeyCharMatches(key[j], s[p + j]);
        }
      }
    }
    if At(s, p, key) {
      forall j | 0 <= j < |key| ensures KeyCharMatches(key[j], s[p + j]) {
        assert s[p..p + |key|][j] == key[j];
      }
    }
  }

  /** Index `j` holds a word character (positions outside the input do not). */
  predicate IsWordAt(s: string, j: int) {
    0 <= j < |s| && IsWordChar(s[j])
  }

  /** `\b` holds between index `j - 1` and index `j`. */
  predicate BoundaryAt(s: string, j: int) {
    IsWordAt(s, j - 1) != IsWordAt(s, j)
  }

  /**
   * The tail  \bKEY\b[^"']*["']  of the markup pattern succeeds with the key at `p`:
   * the key matches there between two boundaries and a quote follows it.
   */
  predicate KeyHit(s: string, p: nat, key: string) {
    KeyAt(s, p, key) && BoundaryAt(s, p) && BoundaryAt(s, p + |key|)
    && FirstQuoteFrom(s, p + |key|) >= 0
  }

  /** The largest `p` in `lo..hi` where the tail succeeds, or -1. */
  function LastKeyHit(s: string, key: string, lo: nat, hi: int): (r: int)
    ensures r == -1 || (lo <= r <= hi && KeyHit(s, r, key))
    decreases hi - lo
  {
    if hi < lo then -1
    else if KeyHit(s, hi, key) then hi
    else LastKeyHit(s, key, lo, hi - 1)
  }

  /** No position of the range after the one `LastKeyHit` returns is a hit. */
  lemma {:induction false} LastKeyHitIsLast(s: string, key: string, lo: nat, hi: int)
    ensures forall p: nat | lo <= p <= hi && LastKeyHit(s, key, lo, hi) < p :: !KeyHit(s, p, key)
    decreases hi - lo
  {
    if hi >= lo && !KeyHit(s, hi, key) {
      LastKeyHitIsLast(s, key, lo, hi - 1);
    }
  }

  /**
   * Where a match of the markup pattern that starts at `i` ends (exclusive), if one does.
   * The greedy first  [^"']*  stays inside the quote-free run after the opening quote and
   * gives back characters one at a time, so the key sits at the last place in that run
   * where the tail succeeds; the second  [^"']*  then runs to the next quote.
   */
  function AttrMatchAt(s: string, key: string, i: nat): (m: Option<nat>)
    ensures m.Some? ==>
      && At(s, i, "class=") && i + 6 < |s| && IsQuote(s[i + 6])
      && i + 7 < m.value <= |s| && IsQuote(s[m.value - 1])
  {
    if !(At(s, i, "class=") && i + 6 < |s| && IsQuote(s[i + 6])) then None
    else
      var run := FirstQuoteFrom(s, i + 7);
      var hi := if run == -1 then |s| else run;
      var p := LastKeyHit(s, key, i + 7, hi);
      if p == -1 then None
      else Some(FirstQuoteFrom(s, p + |key|) + 1)
  }

  /**
   * The attribute pattern matches at `i` exactly when `class=` and a quote are there and the
   * key's tail succeeds somewhere in the quote-free run after the quote.
   */
  lemma AttrMatchAtIff(s: string, key: string, i: nat)
    ensures AttrMatchAt(s, key, i).Some? <==>
      && At(s, i, "class=") && i + 6 < |s| && IsQuote(s[i + 6])
      && exists p: nat :: i + 7 <= p && KeyHit(s, p, key) && QuoteFreeBetween(s, i + 7, p)
  {
    if At(s, i, "class=") && i + 6 < |s| && IsQuote(s[i + 6]) {
      var run := FirstQuoteFrom(s, i + 7);
      var hi := if run == -1 then |s| else run;
      var p := LastKeyHit(s, key, i + 7, hi);
      if p == -1 {
        NoHitOutsideRun(s, key, i + 7, hi);
      } else {
        assert QuoteFreeBetween(s, i + 7, p);
      }
    }
  }

  /** No quote lies in `s[lo..hi]`. */
  predicate QuoteFreeBetween(s: string, lo: nat, hi: nat) {
    forall k | lo <= k < hi && k < |s| :: !IsQuote(s[k])
  }

  /** Past the end of the quote-free run the first  [^"']*  cannot reach. */
  lemma NoHitOutsideRun(s: string, key: string, lo: nat, hi: nat)
    requires hi == (if FirstQuoteFrom(s, lo) == -1 then |s| else FirstQuoteFrom(s, lo))
    requires LastKeyHit(s, key, lo, hi) == -1
    ensures forall p: nat :: lo <= p && KeyHit(s, p, key) ==> !QuoteFreeBetween(s, lo, p)
  {
    LastKeyHitIsLast(s, key, lo, hi);
    forall p: nat | lo <= p && KeyHit(s, p, key)
      ensures !QuoteFreeBetween(s, lo, p)
    {
      assert p > hi;
      assert hi < |s| && IsQuote(s[hi]);
    }
  }

  /** `content.match(pattern)` for the markup pattern, from index `i` on: how many matches. */
  function CountAttrMatchesFrom(s: string, key: string, i: nat): nat
    decreases |s| - i
  {
    if i >= |s| then 0
    else match AttrMatchAt(s, key, i)
      case None => CountAttrMatchesFrom(s, key, i + 1)
      case Some(e) => 1 + CountAttrMatchesFrom(s, key, e)
  }

  /** `content.replace(pattern, m => m.replace(key, value))` from index `i` on. */
  function ReplaceAttrMatchesFrom(s: string, key: string, value: string, i: nat): string
    decreases |s| - i
  {
    if i >= |s| then []
    else match AttrMatchAt(s, key, i)
      case None => [s[i]] + ReplaceAttrMatchesFrom(s, key, value, i + 1)
      case Some(e) => ReplaceFirst(s[i..e], key, value) + ReplaceAttrMatchesFrom(s, key, value, e)
  }

  function CountAttrMatches(s: string, key: string): nat {
    CountAttrMatchesFrom(s, key, 0)
  }

  function ReplaceAttrMatches(s: string, key: string, value: string): string {
    ReplaceAttrMatchesFrom(s, key, value, 0)
  }

  /** Where the markup pattern finds nothing, the text is left as it is. */
  lemma {:induction false} AttrNoMatchUnchanged(s: string, key: string, value: string, i: nat)
    requires i <= |s|
    requires CountAttrMatchesFrom(s, key, i) == 0
    ensures ReplaceAttrMatchesFrom(s, key, value, i) == s[i..]
    decreases |s| - i
  {
    if i < |s| {
      AttrNoMatchUnchanged(s, key, value, i + 1);
    }
  }

  /** An entry that maps a key to itself leaves the text as it is. */
  lemma {:induction false} AttrIdentityUnchanged(s: string, key: string, i: nat)
    requires i <= |s|
    ensures ReplaceAttrMatchesFrom(s, key, key, i) == s[i..]
    decreases |s| - i
  {
    if i < |s| {
      var m := AttrMatchAt(s, key, i);
      var next := if m.Some? then m.value else i + 1;
      AttrIdentityUnchanged(s, key, next);
      AttrIdentityStep(s, key, i, next);
    }
  }

  /** One step of the identity scan: the part up to `next` is copied unchanged. */
  lemma AttrIdentityStep(s: string, key: string, i: nat, next: nat)
    requires i < |s|
    requires next == (if AttrMatchAt(s, key, i).Some? then AttrMatchAt(s, key, i).value else i + 1)
    requires ReplaceAttrMatchesFrom(s, key, key, next) == s[next..]
    ensures ReplaceAttrMatchesFrom(s, key, key, i) == s[i..]
  {
    var head := s[i..next];
    if AttrMatchAt(s, key, i).Some? {
      ReplaceFirstSame(head, key);
      assert ReplaceAttrMatchesFrom(s, key, key, i) == ReplaceFirst(head, key, key) + s[next..];
    } else {
      assert head == [s[i]];
    }
    assert s[i..] == head + s[next..];
  }

  /**
   * For a key with no `.`, every match holds the key literally, so each match is rewritten
   * once: the text grows by `|value| - |key|` per match that the scan counts.
   */
  lemma {:induction false} AttrRewriteLength(s: string, key: string, value: string, i: nat)
    requires '.' !in key
    requires i <= |s|
    ensures |ReplaceAttrMatchesFrom(s, key, value, i)|
         == |s| - i + CountAttrMatchesFrom(s, key, i) * (|value| - |key|)
    decreases |s| - i
  {
    if i < |s| {
      var m := AttrMatchAt(s, key, i);
      var next := if m.Some? then m.value else i + 1;
      AttrRewriteLength(s, key, value, next);
      AttrLengthStep(s, key, value, i, next);
    }
  }

  /** One step of the length count: a match grows by `|value| - |key|`, any other character by nothing. */
  lemma AttrLengthStep(s: string, key: string, value: string, i: nat, next: nat)
    requires '.' !in key && i < |s|
    requires next == (if AttrMatchAt(s, key, i).Some? then AttrMatchAt(s, key, i).value else i + 1)
    requires |ReplaceAttrMatchesFrom(s, key, value, next)|
          == |s| - next + CountAttrMatchesFrom(s, key, next) * (|value| - |key|)
    ensures |ReplaceAttrMatchesFrom(s, key, value, i)|
         == |s| - i + CountAttrMatchesFrom(s, key, i) * (|value| - |key|)
  {
    AttrScanStep(s, key, value, i);
    var m := AttrMatchAt(s, key, i);
    var whole := ReplaceAttrMatchesFrom(s, key, value, i);
    var tail := ReplaceAttrMatchesFrom(s, key, value, next);
    var c := CountAttrMatchesFrom(s, key, next);
    var d := |value| - |key|;
    if m.Some? {
      MatchRewriteLength(s, key, value, i);
      var head := ReplaceFirst(s[i..next], key, value);
      assert whole == head + tail;
      assert CountAttrMatchesFrom(s, key, i) == 1 + c;
      LengthStepArith(|whole|, |head|, |tail|, |s|, i, next, c, d);
    } else {
      assert whole == [s[i]] + tail;
      assert CountAttrMatchesFrom(s, key, i) == c;
    }
  }

  /** One step of the markup scan at `i`, in both cases. */
  lemma AttrScanStep(s: string, key: string, value: string, i: nat)
    requires i < |s|
    ensures AttrMatchAt(s, key, i).Some? ==>
      var e := AttrMatchAt(s, key, i).value;
      && ReplaceAttrMatchesFrom(s, key, value, i)
         == ReplaceFirst(s[i..e], key, value) + ReplaceAttrMatchesFrom(s, key, value, e)
      && CountAttrMatchesFrom(s, key, i) == 1 + CountAttrMatchesFrom(s, key, e)
    ensures AttrMatchAt(s, key, i).None? ==>
      && ReplaceAttrMatchesFrom(s, key, value, i) == [s[i]] + ReplaceAttrMatchesFrom(s, key, value, i + 1)
      && CountAttrMatchesFrom(s, key, i) == CountAttrMatchesFrom(s, key, i + 1)
  {
  }

  lemma LengthStepArith(whole: int, head: int, tail: int, n: int, i: int, next: int, c: int, d: int)
    requires whole == head + tail && head == next - i + d && tail == n - next + c * d
    ensures whole == n - i + (1 + c) * d
  {
    GrowthStep2(c, d);
  }

  /** A match of a key with no `.` holds the key literally, so its rewrite replaces it once. */
  lemma MatchRewriteLength(s: string, key: string, value: string, i: nat)
    requires '.' !in key
    requires AttrMatchAt(s, key, i).Some?
    ensures var e := AttrMatchAt(s, key, i).value;
      |ReplaceFirst(s[i..e], key, value)| == e - i - |key| + |value|
  {
    var e := AttrMatchAt(s, key, i).value;
    var p := MatchKeyHit(s, key, i);
    var span := s[i..e];
    KeyAtLiteral(s, p, key);
    assert span[p - i..p - i + |key|] == s[p..p + |key|];
    ReplaceFirstLength(span, key, value, p - i);
  }

  lemma GrowthStep(c: nat, d: int)
    ensures (1 + c) * d == d + c * d
  {
  }

  lemma GrowthStep2(c: int, d: int)
    ensures (1 + c) * d == d + c * d
  {
  }

  /** The key hit the scan settles on lies inside the match it produces. */
  lemma MatchKeyHit(s: string, key: string, i: nat) returns (p: nat)
    requires AttrMatchAt(s, key, i).Some?
    ensures i + 7 <= p && KeyAt(s, p, key) && p + |key| <= AttrMatchAt(s, key, i).value
  {
    var run := FirstQuoteFrom(s, i + 7);
    var hi := if run == -1 then |s| else run;
    p := LastKeyHit(s, key, i + 7, hi);
    var q := FirstQuoteFrom(s, p + |key|);
    assert q >= p + |key|;
  }

  /** The style-sheet pattern  \.KEY\b  matches at `j`. */
  predicate SelectorAt(s: string, key: string, j: nat) {
    j < |s| && s[j] == '.' && KeyAt(s, j + 1, key) && BoundaryAt(s, j + 1 + |key|)
  }

  /** `content.match(pattern)` for the style-sheet pattern, from index `i` on. */
  function CountSelectorsFrom(s: string, key: string, i: nat): nat
    decreases |s| - i
  {
    if i >= |s| then 0
    else if SelectorAt(s, key, i) then 1 + CountSelectorsFrom(s, key, i + 1 + |key|)
    else CountSelectorsFrom(s, key, i + 1)
  }

  /** `content.replace(pattern, "." + value)` from index `i` on. */
  function ReplaceSelectorsFrom(s: string, key: string, value: string, i: nat): string
    decreases |s| - i
  {
    if i >= |s| then []
    else if SelectorAt(s, key, i) then "." + value + ReplaceSelectorsFrom(s, key, value, i + 1 + |key|)
    else [s[i]] + ReplaceSelectorsFrom(s, key, value, i + 1)
  }

  function CountSelectors(s: string, key: string): nat {
    CountSelectorsFrom(s, key, 0)
  }

  function ReplaceSelectors(s: string, key: string, value: string): string {
    ReplaceSelectorsFrom(s, key, value, 0)
  }

  /** Each matched selector of `1 + |key|` characters becomes one of `1 + |value|`. */
  lemma {:induction false} SelectorRewriteLength(s: string, key: string, value: string, i: nat)
    requires i <= |s|
    ensures |ReplaceSelectorsFrom(s, key, value, i)|
         == |s| - i + CountSelectorsFrom(s, key, i) * (|value| - |key|)
    decreases |s| - i
  {
    if i < |s| {
      if SelectorAt(s, key, i) {
        SelectorRewriteLength(s, key, value, i + 1 + |key|);
        GrowthStep(CountSelectorsFrom(s, key, i + 1 + |key|), |value| - |key|);
      } else {
        SelectorRewriteLength(s, key, value, i + 1);
      }
    }
  }

  /** Where the style-sheet pattern finds nothing, the text is left as it is. */
  lemma {:induction false} SelectorNoMatchUnchanged(s: string, key: string, value: string, i: nat)
    requires i <= |s|
    requires CountSelectorsFrom(s, key, i) == 0
    ensures ReplaceSelectorsFrom(s, key, value, i) == s[i..]
    decreases |s| - i
  {
    if i < |s| {
      SelectorNoMatchUnchanged(s, key, value, i + 1);
    }
  }

  /**
   * An entry that maps a key with no `.` to itself leaves the style sheet as it is (a `.`
   * matches any character, which the literal replacement would then overwrite).
   */
  lemma {:induction false} SelectorIdentityUnchanged(s: string, key: string, i: nat)
    requires '.' !in key
    requires i <= |s|
    ensures ReplaceSelectorsFrom(s, key, key, i) == s[i..]
    decreases |s| - i
  {
    if i < |s| {
      if SelectorAt(s, key, i) {
        var e := i + 1 + |key|;
        SelectorIdentityUnchanged(s, key, e);
        KeyAtLiteral(s, i + 1, key);
        assert s[i..e] == [s[i]] + s[i + 1..e];
        assert s[i..] == s[i..e] + s[e..];
      } else {
        SelectorIdentityUnchanged(s, key, i + 1);
      }
    }
  }

  /**
   * The markup rewrite of `processHTMLContent` over a table: each entry's scan runs on the
   * text the previous entries produced.
   */
  function RewriteHtmlClasses(content: string, table: seq<ClassMapping>): string {
    if |table| == 0 then content
    else
      var last := table[|table| - 1];
      ReplaceAttrMatches(RewriteHtmlClasses(content, table[..|table| - 1]), last.legacy, last.modern)
  }

  /** The change count of `processHTMLContent`: every entry's matches in the original text. */
  function HtmlClassChanges(content: string, table: seq<ClassMapping>): nat {
    if |table| == 0 then 0
    else
      HtmlClassChanges(content, table[..|table| - 1])
      + CountAttrMatches(content, table[|table| - 1].legacy)
  }

  /** The selector rewrite of `processCSSContent` over a table. */
  function RewriteCssSelectors(content: string, table: seq<ClassMapping>): string {
    if |table| == 0 then content
    else
      var last := table[|table| - 1];
      ReplaceSelectors(RewriteCssSelectors(content, table[..|table| - 1]), last.legacy, last.modern)
  }

  /** The change count of `processCSSContent`: every entry's matches in the original text. */
  function CssSelectorChanges(content: string, table: seq<ClassMapping>): nat {
    if |table| == 0 then 0
    else
      CssSelectorChanges(content, table[..|table| - 1])
      + CountSelectors(content, table[|table| - 1].legacy)
  }

  /** Taking one more entry of a table applies that entry to the markup and adds its count. */
  lemma HtmlTableStep(content: string, table: seq<ClassMapping>, k: nat)
    requires k < |table|
    ensures RewriteHtmlClasses(content, table[..k + 1])
         == ReplaceAttrMatches(RewriteHtmlClasses(content, table[..k]), table[k].legacy, table[k].modern)
    ensures HtmlClassChanges(content, table[..k + 1])
         == HtmlClassChanges(content, table[..k]) + CountAttrMatches(content, table[k].legacy)
  {
    assert table[..k + 1][..k] == table[..k];
  }

  /** Taking one more entry of a table applies that entry to the style sheet and adds its count. */
  lemma CssTableStep(content: string, table: seq<ClassMapping>, k: nat)
    requires k < |table|
    ensures RewriteCssSelectors(content, table[..k + 1])
         == ReplaceSelectors(RewriteCssSelectors(content, table[..k]), table[k].legacy, table[k].modern)
    ensures CssSelectorChanges(content, table[..k + 1])
         == CssSelectorChanges(content, table[..k]) + CountSelectors(content, table[k].legacy)
  {
    assert table[..k + 1][..k] == table[..k];
  }

  /** Running a table in two parts is running the second part on the first part's output. */
  lemma {:induction false} RewriteHtmlSplit(content: string, a: seq<ClassMapping>, b: seq<ClassMapping>)
    ensures RewriteHtmlClasses(content, a + b) == RewriteHtmlClasses(RewriteHtmlClasses(content, a), b)
    decreases |b|
  {
    if |b| > 0 {
      assert (a + b)[..|a + b| - 1] == a + b[..|b| - 1];
      RewriteHtmlSplit(content, a, b[..|b| - 1]);
    } else {
      assert a + b == a;
    }
  }

  /**
   * The change count of a table is the sum of its parts' counts, each taken on the original
   * text: what an earlier entry rewrote still counts for a later one.
   */
  lemma {:induction false} HtmlChangesSplit(content: string, a: seq<ClassMapping>, b: seq<ClassMapping>)
    ensures HtmlClassChanges(content, a + b) == HtmlClassChanges(content, a) + HtmlClassChanges(content, b)
    decreases |b|
  {
    if |b| > 0 {
      assert (a + b)[..|a + b| - 1] == a + b[..|b| - 1];
      HtmlChangesSplit(content, a, b[..|b| - 1]);
    } else {
      assert a + b == a;
    }
  }

  /** An identity entry anywhere in the table can be dropped without changing the output. */
  lemma DropIdentityHtml(content: string, a: seq<ClassMapping>, m: ClassMapping, b: seq<ClassMapping>)
    requires m.legacy == m.modern
    ensures RewriteHtmlClasses(content, a + [m] + b) == RewriteHtmlClasses(content, a + b)
  {
    var mid := RewriteHtmlClasses(content, a);
    RewriteHtmlSplit(content, a + [m], b);
    RewriteHtmlSplit(content, a, [m]);
    assert RewriteHtmlClasses(mid, [m]) == ReplaceAttrMatches(mid, m.legacy, m.legacy) by {
      assert [m][..0] == [];
    }
    AttrIdentityUnchanged(mid, m.legacy, 0);
    RewriteHtmlSplit(content, a, b);
  }

  lemma {:induction false} RewriteCssSplit(content: string, a: seq<ClassMapping>, b: seq<ClassMapping>)
    ensures RewriteCssSelectors(content, a + b) == RewriteCssSelectors(RewriteCssSelectors(content, a), b)
    decreases |b|
  {
    if |b| > 0 {
      assert (a + b)[..|a + b| - 1] == a + b[..|b| - 1];
      RewriteCssSplit(content, a, b[..|b| - 1]);
    } else {
      assert a + b == a;
    }
  }

  lemma {:induction false} CssChangesSplit(content: string, a: seq<ClassMapping>, b: seq<ClassMapping>)
    ensures CssSelectorChanges(content, a + b) == CssSelectorChanges(content, a) + CssSelectorChanges(content, b)
    decreases |b|
  {
    if |b| > 0 {
      assert (a + b)[..|a + b| - 1] == a + b[..|b| - 1];
      CssChangesSplit(content, a, b[..|b| - 1]);
    } else {
      assert a + b == a;
    }
  }

  /** An identity entry whose key has no `.` can be dropped from the style-sheet pass. */
  lemma DropIdentityCss(content: string, a: seq<ClassMapping>, m: ClassMapping, b: seq<ClassMapping>)
    requires m.legacy == m.modern && '.' !in m.legacy
    ensures RewriteCssSelectors(content, a + [m] + b) == RewriteCssSelectors(content, a + b)
  {
    var mid := RewriteCssSelectors(content, a);
    RewriteCssSplit(content, a + [m], b);
    RewriteCssSplit(content, a, [m]);
    assert RewriteCssSelectors(mid, [m]) == ReplaceSelectors(mid, m.legacy, m.legacy) by {
      assert [m][..0] == [];
    }
    SelectorIdentityUnchanged(mid, m.legacy, 0);
    RewriteCssSplit(content, a, b);
  }
}
