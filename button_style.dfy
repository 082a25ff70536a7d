/**
 * The last rewrite of the simulated converter (llmService.ts):
 * `/class=["']([^"']*)btn-default([^"']*)["']/g` becomes `class="$1btn-secondary$2"`.
 */
module ButtonStyle {
  import opened Wrappers
  import opened Text
  import opened AttributeRewrite

  const ButtonDefault := "btn-default"
  const ButtonSecondary := "btn-secondary"
  const ClassOpen := "class=\""

  /** One match of the button-style pattern: the two captured groups and where the match ends. */
  datatype ButtonClass = ButtonClass(before: string, after: string, end: nat)

  /**
   * The pattern matches at `i` with `btn-default` at `j` and the closing quote at `e`:
   * `class=`, a quote, a run of non-quote characters holding `btn-default`, a quote.
   */
  ghost predicate ButtonMatch(s: string, i: nat, j: nat, e: nat) {
    At(s, i, "class=") && i + 7 <= j && j + |ButtonDefault| <= e < |s|
    && IsQuote(s[i + 6]) && At(s, j, ButtonDefault) && IsQuote(s[e])
    && forall k | i + 7 <= k < e :: !IsQuote(s[k])
  }

  lemma AtShift(s: string, a: nat, b: nat, p: nat, t: string)
    requires a <= b <= |s| && p + |t| <= b - a
    ensures At(s[a..b], p, t) <==> At(s, a + p, t)
  {
    var u, v := s[a..b][p..p + |t|], s[a + p..a + p + |t|];
    forall k | 0 <= k < |t| ensures u[k] == v[k] {
      assert u[k] == s[a + p + k];
    }
    assert u == v;
  }

  /**
   * The pattern tried at `i`. The quote-free run ends at the first quote after the opening
   * one; the greedy first group puts `btn-default` at its last occurrence in that run.
   */
  function ButtonClassAt(s: string, i: nat): (r: Option<ButtonClass>)
    ensures r.Some? <==> exists j: nat, e: nat :: ButtonMatch(s, i, j, e)
    ensures r.Some? ==> exists j: nat, e: nat ::
      ButtonMatch(s, i, j, e) && r.value == ButtonClass(s[i + 7..j], s[j + |ButtonDefault|..e], e + 1)
      && forall j': nat :: j < j' ==> !ButtonMatch(s, i, j', e)
  {
    if !(At(s, i, "class=") && i + 6 < |s| && IsQuote(s[i + 6])) then None
    else
      var e := FirstQuoteFrom(s, i + 7);
      if e == -1 || e < i + 7 + |ButtonDefault| then
        assert forall j: nat, e': nat :: !ButtonMatch(s, i, j, e');
        None
      else
        var run := s[i + 7..e];
        var p := LastIndexUpTo(run, ButtonDefault, |run| - |ButtonDefault|);
        if p == -1 then
          assert forall j: nat, e': nat :: !ButtonMatch(s, i, j, e') by {
            forall j: nat, e': nat | ButtonMatch(s, i, j, e') ensures false {
              assert IsQuote(s[e']);
              assert e' == e;
              AtShift(s, i + 7, e, j - (i + 7), ButtonDefault);
            }
          }
          None
        else
          AtShift(s, i + 7, e, p, ButtonDefault);
          assert ButtonMatch(s, i, i + 7 + p, e);
          assert forall j': nat :: i + 7 + p < j' ==> !ButtonMatch(s, i, j', e) by {
            forall j': nat | i + 7 + p < j' && ButtonMatch(s, i, j', e) ensures false {
              AtShift(s, i + 7, e, j' - (i + 7), ButtonDefault);
            }
          }
          Some(ButtonClass(run[..p], run[p + |ButtonDefault|..], e + 1))
  }

  /** What one match becomes. */
  function ButtonReplacement(m: ButtonClass): string {
    ClassOpen + m.before + ButtonSecondary + m.after + "\""
  }

  /** The global replacement from index `i` on, matches tried left to right without overlap. */
  function ButtonStyleFrom(s: string, i: nat): string
    requires i <= |s|
    decreases |s| - i
  {
    if i == |s| then ""
    else match ButtonClassAt(s, i)
      case Some(m) => ButtonReplacement(m) + ButtonStyleFrom(s, m.end)
      case None => [s[i]] + ButtonStyleFrom(s, i + 1)
  }

  function ButtonStyle(s: string): string {
    ButtonStyleFrom(s, 0)
  }

  /** The pieces of one match sit in the input where the pattern says. */
  lemma ButtonClassParts(s: string, i: nat) returns (j: nat, e: nat)
    requires ButtonClassAt(s, i).Some?
    ensures ButtonMatch(s, i, j, e)
    ensures ButtonClassAt(s, i).value == ButtonClass(s[i + 7..j], s[j + |ButtonDefault|..e], e + 1)
  {
    j, e :| ButtonMatch(s, i, j, e)
      && ButtonClassAt(s, i).value == ButtonClass(s[i + 7..j], s[j + |ButtonDefault|..e], e + 1)
      && forall j': nat :: j < j' ==> !ButtonMatch(s, i, j', e);
  }

  /**
   * One rewritten attribute is double-quoted whatever quotes the input used, is two characters
   * longer than the text it replaces, and renames only the last `btn-default` of the run: an
   * earlier one that does not overlap it stays, at the same offset.
   */
  lemma ButtonReplacementShape(s: string, i: nat, j0: nat, e0: nat)
    requires ButtonMatch(s, i, j0, e0)
    ensures ButtonClassAt(s, i).Some?
    ensures var m := ButtonClassAt(s, i).value; var out := ButtonReplacement(m);
      At(out, 0, ClassOpen) && EndsWith(out, "\"") && |out| == m.end - i + 2
      && (j0 + |ButtonDefault| <= i + 7 + |m.before| ==> At(out, j0 - i, ButtonDefault))
  {
    var j, e := ButtonClassParts(s, i);
    SameRunEnd(s, i, j, e, j0, e0);
    var m := ButtonClassAt(s, i).value;
    ReplacementFrame(m.before, m.after);
    if j0 + |ButtonDefault| <= j {
      AtShift(s, i + 7, j, j0 - (i + 7), ButtonDefault);
      KeptBefore(m.before, m.after, j0 - (i + 7));
    }
  }

  /** Two matches at the same start close at the same quote. */
  lemma SameRunEnd(s: string, i: nat, j: nat, e: nat, j': nat, e': nat)
    requires ButtonMatch(s, i, j, e) && ButtonMatch(s, i, j', e')
    ensures e == e'
  {
  }

  lemma ReplacementFrame(before: string, after: string)
    ensures var out := ClassOpen + before + ButtonSecondary + after + "\"";
      At(out, 0, ClassOpen) && EndsWith(out, "\"") && |out| == 7 + |before| + 13 + |after| + 1
  {
    var out := ClassOpen + before + ButtonSecondary + after + "\"";
    assert out[0..7] == ClassOpen;
  }

  lemma KeptBefore(before: string, after: string, d: nat)
    requires At(before, d, ButtonDefault)
    ensures At(ClassOpen + before + ButtonSecondary + after + "\"", 7 + d, ButtonDefault)
  {
    var out := ClassOpen + before + ButtonSecondary + after + "\"";
    assert out[7 + d..7 + d + |ButtonDefault|] == before[d..d + |ButtonDefault|];
  }

  /** Where the button pattern never matches, the step changes nothing. */
  lemma {:induction false} ButtonStyleUntouched(s: string, i: nat)
    requires i <= |s|
    requires forall k: nat, j: nat, e: nat :: i <= k ==> !ButtonMatch(s, k, j, e)
    ensures ButtonStyleFrom(s, i) == s[i..]
    decreases |s| - i
  {
    if i < |s| {
      ButtonStyleUntouched(s, i + 1);
      assert s[i..] == [s[i]] + s[i + 1..];
    }
  }

  lemma NotInAt(u: string, k: nat, c: char)
    requires c !in u && k < |u|
    ensures u[k] != c
  {
    assert u[k] in u;
  }

  /**
   * A pattern the button step cannot fake from the front: either it holds no quote class,
   * so it cannot reach past `class=`, or it holds no `c`, so it cannot start there at all.
   */
  predicate ReflectSafe(u: string) {
    '"' !in u || 'c' !in u
  }

  lemma ReflectSafeSuffix(u: string, x: nat)
    requires ReflectSafe(u) && x <= |u|
    ensures ReflectSafe(u[x..])
  {
    forall c | c in u[x..] ensures c in u {
      var y :| 0 <= y < |u[x..]| && u[x..][y] == c;
      assert u[x + y] == c;
    }
  }

  /** If the output from `i` begins like `u`, so did the input. */
  lemma {:induction false} ButtonStyleReflects(s: string, i: nat, u: string)
    requires i <= |s| && ReflectSafe(u)
    ensures MatchesAt(ButtonStyleFrom(s, i), 0, u) ==> MatchesAt(s, i, u)
    decreases |u|
  {
    var out := ButtonStyleFrom(s, i);
    if |u| > 0 && i < |s| && MatchesAt(out, 0, u) {
      match ButtonClassAt(s, i)
      case Some(m) =>
        assert out == ClassOpen + m.before + ButtonSecondary + m.after + "\"" + ButtonStyleFrom(s, m.end);
        if 'c' !in u {
          NotInAt(u, 0, 'c');
          assert false;
        }
        if |u| > 6 {
          NotInAt(u, 6, '"');
          assert false;
        }
        forall k | 0 <= k < |u| ensures Fits(s[i + k], u[k]) {
          assert out[k] == ClassOpen[k] == s[i..i + 6][k];
        }
      case None =>
        var rest := ButtonStyleFrom(s, i + 1);
        ReflectSafeSuffix(u, 1);
        ButtonStyleReflects(s, i + 1, u[1..]);
        MatchesCons(out, u);
        assert out[1..] == rest;
        MatchesCons(s[i..], u);
        MatchesDrop(s, i, 0, u);
        MatchesDrop(s, i + 1, 0, u[1..]);
        assert s[i..][1..] == s[i + 1..];
    }
  }

  /** No match of `q` starts inside a segment of `out` whose every suffix clashes with `q`. */
  lemma FixedSegmentFree(out: string, off: nat, seg: string, q: string, k: nat)
    requires off + |seg| <= |out| && out[off..off + |seg|] == seg
    requires SuffixesClash(seg, q) && off <= k < off + |seg|
    ensures !MatchesAt(out, k, q)
  {
    var t := k - off;
    assert Clash(seg[t..], q);
    var x :| 0 <= x < |seg[t..]| && x < |q| && !Fits(seg[t..][x], q[x]);
    assert out[k + x] == out[off..off + |seg|][t + x];
  }

  /**
   * No match of `q` starts inside a segment copied from `src` at `d`, when `src` holds no
   * `q` from `d` on and the text that follows the segment cannot finish one.
   */
  lemma CopiedSegmentFree(out: string, off: nat, seg: string, next: string, q: string, k: nat,
                          src: string, d: nat)
    requires off + |seg| + |next| <= |out| && out[off..off + |seg| + |next|] == seg + next
    requires d + |seg| <= |src| && src[d..d + |seg|] == seg && FreeFrom(src, q, d)
    requires |q| > 0 && ClashesWithSuffixes(next, q[1..]) && off <= k < off + |seg|
    ensures !MatchesAt(out, k, q)
  {
    var t := k - off;
    var win := out[off..off + |seg| + |next|];
    if k + |q| <= |out| {
      if t + |q| <= |seg| {
        assert !MatchesAt(src, d + t, q);
        var x :| 0 <= x < |q| && !Fits(src[d + t + x], q[x]);
        assert src[d + t + x] == seg[t + x] == win[t + x] == out[k + x];
      } else {
        var m := |seg| - t;
        assert q[1..][m - 1..] == q[m..];
        assert Clash(next, q[m..]);
        var x :| 0 <= x < |next| && x < |q[m..]| && !Fits(next[x], q[m..][x]);
        assert out[k + m + x] == win[|seg| + x] == next[x];
        assert q[m..][x] == q[m + x];
      }
    }
  }

  /** A closing quote cannot hold a pattern that starts with a plain character. */
  lemma QuoteClean(q: string)
    requires |q| > 0 && q[0] != '"'
    ensures SuffixesClash("\"", q)
  {
    assert "\""[0..] == "\"";
  }

  /** `class="` holds no match of a pattern that starts with none of its characters. */
  lemma ClassOpenClean(q: string)
    requires |q| > 0 && q[0] !in ClassOpen
    ensures SuffixesClash(ClassOpen, q)
  {
    forall t | 0 <= t < |ClassOpen| ensures Clash(ClassOpen[t..], q) {
      assert ClassOpen[t..][0] == ClassOpen[t] && ClassOpen[t] in ClassOpen;
    }
  }

  /** Every pattern the step cannot fake that begins the output from `i` began the input there. */
  ghost predicate Reflects(s: string, i: nat, out: string) {
    forall u: string :: ReflectSafe(u) && MatchesAt(out, 0, u) ==> MatchesAt(s, i, u)
  }

  lemma ButtonStyleReflectsAll(s: string, i: nat)
    requires i <= |s|
    ensures Reflects(s, i, ButtonStyleFrom(s, i))
  {
    forall u: string | ReflectSafe(u) && MatchesAt(ButtonStyleFrom(s, i), 0, u) ensures MatchesAt(s, i, u) {
      ButtonStyleReflects(s, i, u);
    }
  }

  /**
   * The button step creates no match of a pattern `q` that cannot start in `class="`, that
   * `btn-secondary` can neither hold nor finish and whose tail the step cannot fake:
   * `data-target=` and the legacy modal toggle and dismiss forms are such patterns.
   */
  lemma {:induction false} ButtonStyleFree(s: string, q: string, i: nat)
    requires i <= |s| && |q| > 0 && q[0] !in ClassOpen && ReflectSafe(q[1..])
    requires SuffixesClash(ButtonSecondary, q) && ClashesWithSuffixes(ButtonSecondary, q[1..])
    requires FreeFrom(s, q, i)
    ensures FreeFrom(ButtonStyleFrom(s, i), q, 0)
    decreases |s| - i
  {
    if i < |s| {
      match ButtonClassAt(s, i)
      case Some(m) =>
        ButtonStyleFree(s, q, m.end);
        var j, e := ButtonClassParts(s, i);
        ButtonStyleReflectsAll(s, m.end);
        MatchedStepFree(s, i, j, e, q, ButtonStyleFrom(s, m.end));
      case None =>
        ButtonStyleFree(s, q, i + 1);
        ButtonStyleReflects(s, i + 1, q[1..]);
        CopiedStepFree(s, i, q, ButtonStyleFrom(s, i + 1));
    }
  }

  /** A character copied in front of text free of `q` starts no `q` unless the input did. */
  lemma CopiedStepFree(s: string, i: nat, q: string, rest: string)
    requires i < |s| && |q| > 0 && FreeFrom(s, q, i) && FreeFrom(rest, q, 0)
    requires MatchesAt(rest, 0, q[1..]) ==> MatchesAt(s, i + 1, q[1..])
    ensures FreeFrom([s[i]] + rest, q, 0)
  {
    var out := [s[i]] + rest;
    forall k: nat ensures !MatchesAt(out, k, q) {
      if k == 0 {
        MatchesCons(out, q);
        assert out[1..] == rest;
        MatchesCons(s[i..], q);
        MatchesDrop(s, i, 0, q);
        MatchesDrop(s, i + 1, 0, q[1..]);
        assert s[i..][1..] == s[i + 1..];
      } else {
        MatchesDrop(out, 1, k - 1, q);
        assert out[1..] == rest;
      }
    }
  }

  /** One button match in front of text free of `q` starts no `q`. */
  lemma MatchedStepFree(s: string, i: nat, j: nat, e: nat, q: string, rest: string)
    requires ButtonMatch(s, i, j, e) && |q| > 0 && q[0] !in ClassOpen && ReflectSafe(q[1..])
    requires SuffixesClash(ButtonSecondary, q) && ClashesWithSuffixes(ButtonSecondary, q[1..])
    requires FreeFrom(s, q, i) && FreeFrom(rest, q, 0) && Reflects(s, e + 1, rest)
    ensures FreeFrom(ButtonReplacement(ButtonClass(s[i + 7..j], s[j + 11..e], e + 1)) + rest, q, 0)
  {
    var piece := ButtonReplacement(ButtonClass(s[i + 7..j], s[j + 11..e], e + 1));
    var out := piece + rest;
    forall k: nat ensures !MatchesAt(out, k, q) {
      if k >= |piece| {
        MatchesDrop(out, |piece|, k - |piece|, q);
        assert out[|piece|..] == rest;
      } else {
        ButtonPieceFree(s, i, j, e, q, k, rest);
      }
    }
  }

  /** No match of `q` starts inside the text one button match becomes. */
  lemma ButtonPieceFree(s: string, i: nat, j: nat, e: nat, q: string, k: nat, rest: string)
    requires ButtonMatch(s, i, j, e) && |q| > 0 && q[0] !in ClassOpen && ReflectSafe(q[1..])
    requires SuffixesClash(ButtonSecondary, q) && ClashesWithSuffixes(ButtonSecondary, q[1..])
    requires FreeFrom(s, q, i) && Reflects(s, e + 1, rest)
    requires k < |ButtonReplacement(ButtonClass(s[i + 7..j], s[j + 11..e], e + 1))|
    ensures !MatchesAt(ButtonReplacement(ButtonClass(s[i + 7..j], s[j + 11..e], e + 1)) + rest, k, q)
  {
    var before, after := s[i + 7..j], s[j + 11..e];
    var out := ButtonReplacement(ButtonClass(before, after, e + 1)) + rest;
    assert out == ClassOpen + before + ButtonSecondary + after + "\"" + rest;
    var b := 7 + |before|;
    var a := b + |ButtonSecondary|;
    var z := a + |after|;
    if k < 7 {
      ClassOpenClean(q);
      assert out[0..7] == ClassOpen;
      FixedSegmentFree(out, 0, ClassOpen, q, k);
    } else if k < b {
      assert out[7..a] == before + ButtonSecondary;
      assert FreeFrom(s, q, i + 7);
      CopiedSegmentFree(out, 7, before, ButtonSecondary, q, k, s, i + 7);
    } else if k < a {
      assert out[b..a] == ButtonSecondary;
      FixedSegmentFree(out, b, ButtonSecondary, q, k);
    } else if k < z {
      assert out[a..z] == after && out[z] == '"' && out[z + 1..] == rest;
      forall u: string | ReflectSafe(u) && MatchesAt(out, z + 1, u) ensures MatchesAt(s, e + 1, u) {
        MatchesDrop(out, z + 1, 0, u);
      }
      AfterSegmentFree(s, e, out, a, after, q, k);
    } else {
      assert '"' in ClassOpen;
      QuoteClean(q);
      assert out[z..z + 1] == "\"";
      FixedSegmentFree(out, z, "\"", q, k);
    }
  }

  /**
   * No match of `q` starts in the copied tail of the class run: one that stayed inside it or
   * ran on over the closing quote would already have been in the input.
   */
  lemma AfterSegmentFree(s: string, e: nat, out: string, a: nat, after: string, q: string, k: nat)
    requires e < |s| && IsQuote(s[e]) && |after| <= e && s[e - |after|..e] == after
    requires a + |after| < |out| && out[a..a + |after|] == after && out[a + |after|] == '"'
    requires forall u: string :: ReflectSafe(u) && MatchesAt(out, a + |after| + 1, u) ==> MatchesAt(s, e + 1, u)
    requires |q| > 0 && ReflectSafe(q[1..]) && FreeFrom(s, q, e - |after|)
    requires a <= k < a + |after|
    ensures !MatchesAt(out, k, q)
  {
    var t := k - a;
    var z := a + |after|;
    var d := e - |after|;
    if MatchesAt(out, k, q) {
      if t + |q| <= |after| {
        forall x | 0 <= x < |q| ensures Fits(s[d + t + x], q[x]) {
          assert s[d + t + x] == after[t + x] == out[a..z][t + x];
        }
        assert MatchesAt(s, d + t, q);
      } else {
        var u := q[z - k + 1..];
        ReflectSafeSuffix(q[1..], z - k);
        assert q[1..][z - k..] == u;
        CrossingMatch(s, e, out, a, after, q, k);
      }
    }
  }

  /** A match that starts in the copied tail and runs over the closing quote was in the input. */
  lemma CrossingMatch(s: string, e: nat, out: string, a: nat, after: string, q: string, k: nat)
    requires e < |s| && IsQuote(s[e]) && |after| <= e && s[e - |after|..e] == after
    requires a + |after| < |out| && out[a..a + |after|] == after && out[a + |after|] == '"'
    requires a <= k < a + |after| < k + |q| && MatchesAt(out, k, q)
    requires MatchesAt(out, a + |after| + 1, q[a + |after| - k + 1..])
             ==> MatchesAt(s, e + 1, q[a + |after| - k + 1..])
    ensures MatchesAt(s, e - |after| + (k - a), q)
  {
    var z := a + |after|;
    var d := e - |after| + (k - a);
    var m := z - k;
    var u := q[m + 1..];
    assert Fits(out[k + m], q[m]);
    forall x | 0 <= x < |u| ensures Fits(out[z + 1 + x], u[x]) {
      assert out[z + 1 + x] == out[k + (m + 1 + x)];
    }
    assert MatchesAt(out, z + 1, u);
    forall x | 0 <= x < |q| ensures Fits(s[d + x], q[x]) {
      if x < m {
        assert s[d + x] == after[k - a + x] == out[a..z][k - a + x];
      } else if x > m {
        assert Fits(s[e + 1 + (x - m - 1)], u[x - m - 1]);
      }
    }
  }

  /** `btn-secondary` cannot hold or finish a pattern that starts `dat` and holds no `b`. */
  lemma SecondaryClean(q: string)
    requires |q| > 2 && q[..3] == "dat" && 'b' !in q && 'c' !in q
    ensures SuffixesClash(ButtonSecondary, q) && ClashesWithSuffixes(ButtonSecondary, q[1..])
    ensures q[0] !in ClassOpen && ReflectSafe(q[1..])
  {
    assert q[0] == 'd' && q[1] == 'a' && q[2] == 't';
    SuffixesClashPieces("btn-secon", "dar", "y", q, 0, 2, 0);
    assert ButtonSecondary == "btn-secon" + "dar" + "y";
    assert 'b' !in q[1..][1..] && 'c' !in q[1..] by {
      forall x | x in q[1..] ensures x in q {
        var y :| 0 <= y < |q[1..]| && q[1..][y] == x;
        assert q[y + 1] == x;
      }
    }
    ClashesWithSuffixesByFirst(ButtonSecondary, q[1..], 0);
  }

  /** The three legacy attribute forms pass through the button step untouched by it. */
  lemma LegacyFormsSurviveButtonStep(s: string, q: string)
    requires q == TogglePattern || q == TargetPattern || q == DismissPattern
    requires FreeFrom(s, q, 0)
    ensures FreeFrom(ButtonStyle(s), q, 0)
  {
    if q == TogglePattern {
      assert 'b' !in TogglePattern && 'c' !in TogglePattern;
    } else if q == TargetPattern {
      assert 'b' !in TargetPattern && 'c' !in TargetPattern;
    } else {
      assert 'b' !in DismissPattern && 'c' !in DismissPattern;
    }
    SecondaryClean(q);
    ButtonStyleFree(s, q, 0);
  }
}
