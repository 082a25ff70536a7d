/**
 * Worked inputs for the class-renaming scans, showing how the table's order and the
 * literal `replace` inside each match shape the output.
 */
module ClassRewriteExamples {
  import opened Wrappers
  import opened Text
  import opened MigrationTypes
  import opened ClassRewrite

  /** With no `class=` at or after `i`, the markup scan finds nothing there. */
  lemma {:induction false} NoAttrFrom(s: string, key: string, value: string, i: nat)
    requires i <= |s|
    requires forall j: nat | i <= j :: !At(s, j, "class=")
    ensures CountAttrMatchesFrom(s, key, i) == 0
    ensures ReplaceAttrMatchesFrom(s, key, value, i) == s[i..]
    decreases |s| - i
  {
    if i < |s| {
      NoAttrFrom(s, key, value, i + 1);
    }
  }

  /** A text that opens with `class="` and holds no other `=` has no second attribute start. */
  lemma OneAttr(s: string)
    requires |s| >= 7 && s[..7] == "class=\"" && '=' !in s[6..]
    ensures forall j: nat | 1 <= j :: !At(s, j, "class=")
  {
    forall j: nat | 1 <= j ensures !At(s, j, "class=") {
      if j + 6 <= |s| { assert s[j + 5] == s[6..][j - 1]; }
    }
  }

  const Heading := "class=\"" + "panel" + "-heading\""
  const CardHeading := "class=\"" + "card" + "-heading\""

  /** When the key's first character is not in `a`, the first occurrence of the key in `a + t + b` is `t`. */
  lemma ReplaceFirstAfter(a: string, t: string, b: string, r: string)
    requires |t| > 0 && t[0] !in a
    ensures ReplaceFirst(a + t + b, t, r) == a + r + b
  {
    var s := a + t + b;
    forall i: nat | i < |a| ensures !At(s, i, t) {
      assert s[i] == a[i];
      NotAtByFirst(s, i, t);
    }
    assert s[|a|..|a| + |t|] == t;
    ReplaceFirstSpec(s, t, r, |a|);
    assert s[..|a|] == a && s[|a| + |t|..] == b;
  }

  /** When the key's first character occurs nowhere after `lo`, a hit at `lo` is the last. */
  lemma {:induction false} LastHitIsOnly(s: string, key: string, lo: nat, hi: int)
    requires |key| > 0 && key[0] != '.' && lo < |s| && key[0] !in s[lo + 1..]
    requires KeyHit(s, lo, key) && lo <= hi
    ensures LastKeyHit(s, key, lo, hi) == lo
    decreases hi - lo
  {
    if hi > lo {
      if hi < |s| {
        assert s[hi] == s[lo + 1..][hi - lo - 1];
        assert !KeyCharMatches(key[0], s[hi + 0]);
      }
      LastHitIsOnly(s, key, lo, hi - 1);
    }
  }

  /** The first quote from `from` is the quote at `q` when none comes before it. */
  lemma {:induction false} FirstQuoteIs(s: string, from: nat, q: nat)
    requires from <= q < |s| && IsQuote(s[q])
    requires forall k | from <= k < q :: !IsQuote(s[k])
    ensures FirstQuoteFrom(s, from) == q
    decreases q - from
  {
    if from < q {
      FirstQuoteIs(s, from + 1, q);
    }
  }

  /**
   * In a lone attribute  class="…"  with one quote-free value, a key hit after which the key's
   * first character never recurs is where the scan settles, and the match spans the whole text.
   */
  lemma OnlyAttrMatch(s: string, key: string, p: nat)
    requires At(s, 0, "class=") && 6 < |s| && IsQuote(s[6]) && IsQuote(s[|s| - 1])
    requires forall k | 7 <= k < |s| - 1 :: !IsQuote(s[k])
    requires 7 <= p && p + |key| < |s|
    requires |key| > 0 && '.' !in key && At(s, p, key)
    requires BoundaryAt(s, p) && BoundaryAt(s, p + |key|)
    requires key[0] !in s[p + 1..]
    ensures AttrMatchAt(s, key, 0) == Some(|s|)
  {
    var q := |s| - 1;
    FirstQuoteIs(s, 7, q);
    FirstQuoteIs(s, p + |key|, q);
    KeyAtLiteral(s, p, key);
    assert KeyHit(s, p, key);
    LastHitIsOnly(s, key, p, q);
    LastKeyHitIsLast(s, key, p, q);
    LastKeyHitIsLast(s, key, 7, q);
    var r := LastKeyHit(s, key, 7, q);
    assert r == p;
  }

  /** `panel` matches the whole of `class="panel-heading"`: `\b` holds before the hyphen. */
  lemma PanelMatchesHeading() ensures AttrMatchAt(Heading, "panel", 0) == Some(21) {
    assert Heading[..6] == "class=";
    assert Heading[7..12] == "panel";
    assert 'p' !in Heading[8..];
    OnlyAttrMatch(Heading, "panel", 7);
  }

  /** `panel-heading` matches the whole of `class="panel-heading"`. */
  lemma PanelHeadingMatchesHeading() ensures AttrMatchAt(Heading, "panel-heading", 0) == Some(21) {
    assert Heading[..6] == "class=";
    assert Heading[7..20] == "panel-heading";
    assert 'p' !in Heading[8..];
    OnlyAttrMatch(Heading, "panel-heading", 7);
  }

  /** Once renamed to `card-heading`, the attribute holds no `panel-heading`. */
  lemma CardHeadingHasNoPanelHeading() ensures AttrMatchAt(CardHeading, "panel-heading", 0) == None {
    assert LastKeyHit(CardHeading, "panel-heading", 7, 19) == -1;
  }

  /** The `panel` entry counts one attribute and renames it to `card-heading`. */
  lemma PanelRenamedOnce() ensures CountAttrMatches(Heading, "panel") == 1 && ReplaceAttrMatches(Heading, "panel", "card") == CardHeading {
    OneAttr(Heading);
    PanelMatchesHeading();
    NoAttrFrom(Heading, "panel", "card", 21);
    assert Heading[0..21] == Heading;
    PanelReplacedLiterally();
  }

  /** The literal `replace` inside the match turns `panel` into `card`. */
  lemma PanelReplacedLiterally() ensures ReplaceFirst(Heading, "panel", "card") == CardHeading {
    ReplaceFirstAfter("class=\"", "panel", "-heading\"", "card");
  }

  /** On the original text the `panel-heading` entry counts one attribute. */
  lemma PanelHeadingCountedOnce() ensures CountAttrMatches(Heading, "panel-heading") == 1 {
    OneAttr(Heading);
    PanelHeadingMatchesHeading();
    NoAttrFrom(Heading, "panel-heading", "card", 21);
  }

  /** The `panel-heading` entry leaves `class="card-heading"` as it is. */
  lemma CardHeadingKeepsItsText() ensures ReplaceAttrMatches(CardHeading, "panel-heading", "card-header") == CardHeading {
    OneAttr(CardHeading);
    CardHeadingHasNoPanelHeading();
    NoAttrFrom(CardHeading, "panel-heading", "card-header", 1);
  }

  /**
   * `panel` comes before `panel-heading` in the table and its `\b` also holds before the
   * hyphen, so it rewrites `panel-heading` to `card-heading`; `panel-heading` then no longer
   * matches, yet both entries count one change, because counts are taken on the original.
   */
  lemma PanelFirst()
    ensures HtmlClassChanges(Heading, [ClassMapping("panel", "card"), ClassMapping("panel-heading", "card-header")]) == 2
    ensures RewriteHtmlClasses(Heading, [ClassMapping("panel", "card"), ClassMapping("panel-heading", "card-header")]) == CardHeading
  {
    var t := [ClassMapping("panel", "card"), ClassMapping("panel-heading", "card-header")];
    PanelRenamedOnce(); PanelHeadingCountedOnce(); CardHeadingKeepsItsText();
    HtmlTableStep(Heading, t, 0);
    HtmlTableStep(Heading, t, 1);
    assert t[..0] == [] && t[..2] == t;
  }

  const HiddenXs := "class=\"" + "hidden" + "-xs\""

  /** `hidden-xs` matches the whole of `class="hidden-xs"`. */
  lemma HiddenXsMatches() ensures AttrMatchAt(HiddenXs, "hidden-xs", 0) == Some(17) {
    assert HiddenXs[..6] == "class=";
    assert HiddenXs[7..16] == "hidden-xs";
    assert 'h' !in HiddenXs[8..];
    OnlyAttrMatch(HiddenXs, "hidden-xs", 7);
  }

  /** `hidden` matches it too, since `\b` holds before the hyphen. */
  lemma HiddenMatchesHiddenXs() ensures AttrMatchAt(HiddenXs, "hidden", 0) == Some(17) {
    assert HiddenXs[..6] == "class=";
    assert HiddenXs[7..13] == "hidden";
    assert 'h' !in HiddenXs[8..];
    OnlyAttrMatch(HiddenXs, "hidden", 7);
  }

  /**
   * `hidden-xs` and the later `hidden` entry both count the attribute `class="hidden-xs"`,
   * so it adds 2 to the change count.
   */
  lemma HiddenXsCountsTwice()
    ensures HtmlClassChanges(HiddenXs, [ClassMapping("hidden-xs", "d-none d-sm-block"), ClassMapping("hidden", "d-none")]) == 2
  {
    var t := [ClassMapping("hidden-xs", "d-none d-sm-block"), ClassMapping("hidden", "d-none")];
    OneAttr(HiddenXs);
    HiddenXsMatches();
    HiddenMatchesHiddenXs();
    NoAttrFrom(HiddenXs, "hidden-xs", "d-none d-sm-block", 17);
    NoAttrFrom(HiddenXs, "hidden", "d-none", 17);
    HtmlTableStep(HiddenXs, t, 0);
    HtmlTableStep(HiddenXs, t, 1);
    assert t[..0] == [] && t[..2] == t;
  }

  /**
   * A `.` in a key matches any character in the attribute pattern, but the rename inside the
   * match looks for the key as literal text: `a.` matches `ab` and is counted, yet nothing is
   * renamed.
   */
  lemma DottedKeyCountedNotRenamed()
    ensures CountAttrMatchesFrom("class=\"ab\"", "a.", 0) == 1
    ensures ReplaceAttrMatchesFrom("class=\"ab\"", "a.", "zzz", 0) == "class=\"ab\""
  {
    var s := "class=\"ab\"";
    assert KeyHit(s, 7, "a.");
    OneAttr(s);
    FirstQuoteIs(s, 7, 9);
    LastKeyHitIsLast(s, "a.", 7, 9);
    NoAttrFrom(s, "a.", "zzz", 10);
    assert AttrMatchAt(s, "a.", 0) == Some(10);
    assert s[0..10] == s;
    forall j: nat ensures !At(s, j, "a.") {
      if j + 2 <= |s| {
        assert s[j..j + 2][1] == s[j + 1] != '.';
      }
    }
  }

  const TwoWells := "class=\"d" + "well" + " well\""
  const RenamedWells := "class=\"d" + "card card-body" + " well\""

  lemma WellMatch() ensures AttrMatchAt(TwoWells, "well", 0) == Some(18) {
    assert TwoWells[..6] == "class=";
    assert TwoWells[13..17] == "well";
    assert 'w' !in TwoWells[14..];
    OnlyAttrMatch(TwoWells, "well", 13);
  }

  lemma WellReplace() ensures ReplaceFirst(TwoWells, "well", "card card-body") == RenamedWells {
    ReplaceFirstAfter("class=\"d", "well", " well\"", "card card-body");
  }

  /**
   * The match is found through the whole word `well`, but the literal `replace` inside the
   * match rewrites the first `well` it meets, the tail of `dwell`.
   */
  lemma FirstLiteralRewritten()
    ensures CountAttrMatches(TwoWells, "well") == 1
    ensures ReplaceAttrMatches(TwoWells, "well", "card card-body") == RenamedWells
  {
    OneAttr(TwoWells);
    WellMatch();
    NoAttrFrom(TwoWells, "well", "card card-body", 18);
    assert TwoWells[0..18] == TwoWells;
    WellReplace();
  }
}
