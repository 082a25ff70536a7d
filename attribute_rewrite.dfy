/**
 * The attribute rewrites of the simulated converter (llmService.ts): global replacements whose
 * patterns are fixed text with `["']` quote classes, and the `btn-default` rewrite inside class
 * attributes. The lemmas say which legacy forms cannot survive a rewrite.
 */
module AttributeRewrite {
  import opened Wrappers
  import opened Text

  /** A pattern character: `"` stands for the class `["']`, any other character for itself. */
  predicate Fits(c: char, p: char) {
    if p == '"' then IsQuote(c) else c == p
  }

  /** The pattern `pat` matches `s` at `i`. */
  predicate MatchesAt(s: string, i: nat, pat: string) {
    i + |pat| <= |s| && forall k | 0 <= k < |pat| :: Fits(s[i + k], pat[k])
  }

  /** A pattern without a quote class is plain text. */
  lemma MatchesPlainText(s: string, i: nat, t: string)
    requires '"' !in t
    ensures MatchesAt(s, i, t) <==> At(s, i, t)
  {
    if MatchesAt(s, i, t) {
      forall k | 0 <= k < |t| ensures s[i..i + |t|][k] == t[k] {
        assert t[k] in t;
      }
    }
    if At(s, i, t) {
      forall k | 0 <= k < |t| ensures Fits(s[i + k], t[k]) {
        assert s[i..i + |t|][k] == t[k];
        assert t[k] in t;
      }
    }
  }

  /** A match read one character at a time. */
  lemma MatchesCons(s: string, p: string)
    requires |p| > 0
    ensures MatchesAt(s, 0, p) <==> |s| > 0 && Fits(s[0], p[0]) && MatchesAt(s[1..], 0, p[1..])
  {
    if |s| > 0 && Fits(s[0], p[0]) && MatchesAt(s[1..], 0, p[1..]) {
      forall k | 0 <= k < |p| ensures Fits(s[k], p[k]) {
        if k > 0 {
          assert s[1..][k - 1] == s[k];
        }
      }
    }
  }

  /** A match further in is a match in the suffix that starts there. */
  lemma MatchesDrop(s: string, j: nat, k: nat, p: string)
    requires j <= |s|
    ensures MatchesAt(s, j + k, p) <==> MatchesAt(s[j..], k, p)
  {
    if MatchesAt(s[j..], k, p) {
      forall x | 0 <= x < |p| ensures Fits(s[j + k + x], p[x]) {
        assert s[j..][k + x] == s[j + k + x];
      }
    }
  }

  /** `/data-toggle=["']modal["']/g` and its replacement. */
  const TogglePattern := "data-toggle=\"modal\""
  const ToggleReplacement := "data-bs-toggle=\"modal\""

  /** `/data-target=/g` and its replacement. */
  const TargetPattern := "data-target="
  const TargetReplacement := "data-bs-target="

  /** `/data-dismiss=["']modal["']/g` and its replacement. */
  const DismissPattern := "data-dismiss=\"modal\""
  const DismissReplacement := "data-bs-dismiss=\"modal\""

  /**
   * `s.replace(/pat/g, rep)` from index `i` on: every match, left to right and without
   * overlaps, becomes `rep`; every other character is kept.
   */
  function ReplaceAllFrom(s: string, pat: string, rep: string, i: nat): string
    requires |pat| > 0 && i <= |s|
    decreases |s| - i
  {
    if i == |s| then ""
    else if MatchesAt(s, i, pat) then rep + ReplaceAllFrom(s, pat, rep, i + |pat|)
    else [s[i]] + ReplaceAllFrom(s, pat, rep, i + 1)
  }

  function ReplaceAll(s: string, pat: string, rep: string): string
    requires |pat| > 0
  {
    ReplaceAllFrom(s, pat, rep, 0)
  }

  /** No match of `pat` starts at or after `i`. */
  ghost predicate FreeFrom(s: string, pat: string, i: nat) {
    forall k: nat :: i <= k ==> !MatchesAt(s, k, pat)
  }

  /** Where nothing matches, nothing changes. */
  lemma {:induction false} ReplaceAllUntouched(s: string, pat: string, rep: string, i: nat)
    requires |pat| > 0 && i <= |s| && FreeFrom(s, pat, i)
    ensures ReplaceAllFrom(s, pat, rep, i) == s[i..]
    decreases |s| - i
  {
    if i < |s| {
      ReplaceAllUntouched(s, pat, rep, i + 1);
      assert s[i..] == [s[i]] + s[i + 1..];
    }
  }

  /** `a` and `p` disagree at some index before either runs out. */
  ghost predicate Clash(a: string, p: string) {
    exists j | 0 <= j < |a| && j < |p| :: !Fits(a[j], p[j])
  }

  /** Every suffix of `a` clashes with `p`: no match of `p` can start inside `a`. */
  ghost predicate SuffixesClash(a: string, p: string) {
    forall k | 0 <= k < |a| :: Clash(a[k..], p)
  }

  /** `a` clashes with every suffix of `p`: `a` cannot finish a match of `p` begun before it. */
  ghost predicate ClashesWithSuffixes(a: string, p: string) {
    forall j | 0 <= j < |p| :: Clash(a, p[j..])
  }

  /** A clash stops a match whatever follows. */
  lemma ClashBlocks(a: string, p: string, x: string)
    requires Clash(a, p)
    ensures !MatchesAt(a + x, 0, p)
  {
    var j :| 0 <= j < |a| && j < |p| && !Fits(a[j], p[j]);
    assert (a + x)[j] == a[j];
  }

  lemma SuffixClashBlocks(a: string, k: nat, p: string, x: string)
    requires SuffixesClash(a, p) && k < |a|
    ensures !MatchesAt(a + x, k, p)
  {
    assert Clash(a[k..], p);
    var j :| 0 <= j < |a[k..]| && j < |p| && !Fits(a[k..][j], p[j]);
    assert (a + x)[k + j] == a[k..][j];
  }

  lemma ClashExtendsLeft(a: string, b: string, p: string)
    requires Clash(a, p)
    ensures Clash(a + b, p)
  {
    var j :| 0 <= j < |a| && j < |p| && !Fits(a[j], p[j]);
    assert (a + b)[j] == a[j];
  }

  lemma ClashExtendsRight(a: string, p: string, b: string)
    requires Clash(a, p)
    ensures Clash(a, p + b)
  {
    var j :| 0 <= j < |a| && j < |p| && !Fits(a[j], p[j]);
    assert (p + b)[j] == p[j];
  }

  lemma SuffixesClashConcat(a: string, b: string, p: string)
    requires SuffixesClash(a, p) && SuffixesClash(b, p)
    ensures SuffixesClash(a + b, p)
  {
    forall k | 0 <= k < |a + b| ensures Clash((a + b)[k..], p) {
      if k < |a| {
        ClashExtendsLeft(a[k..], b, p);
        assert (a + b)[k..] == a[k..] + b;
      } else {
        assert (a + b)[k..] == b[k - |a|..];
      }
    }
  }

  lemma ClashesWithSuffixesConcat(a: string, p: string, q: string)
    requires ClashesWithSuffixes(a, p) && ClashesWithSuffixes(a, q)
    ensures ClashesWithSuffixes(a, p + q)
  {
    forall j | 0 <= j < |p + q| ensures Clash(a, (p + q)[j..]) {
      if j < |p| {
        ClashExtendsRight(a, p[j..], q);
        assert (p + q)[j..] == p[j..] + q;
      } else {
        assert (p + q)[j..] == q[j - |p|..];
      }
    }
  }

  /**
   * A pattern that starts with a plain character can only start inside `a` where `a` holds
   * that character; if that is only at the front, one clash there (at index `j`) covers
   * every suffix.
   */
  lemma SuffixesClashByFirst(a: string, p: string, j: nat)
    requires j < |a| && j < |p| && !Fits(a[j], p[j])
    requires p[0] != '"' && p[0] !in a[1..]
    ensures SuffixesClash(a, p)
  {
    assert a[0..] == a;
    forall k | 1 <= k < |a| ensures Clash(a[k..], p) {
      assert a[k] == a[1..][k - 1];
      assert a[k..][0] == a[k];
    }
  }

  /** Dually, `a` starting with a plain character only meets suffixes of `p` that start with it. */
  lemma ClashesWithSuffixesByFirst(a: string, p: string, j: nat)
    requires j < |a| && j < |p| && !Fits(a[j], p[j])
    requires !IsQuote(a[0]) && a[0] !in p[1..]
    ensures ClashesWithSuffixes(a, p)
  {
    assert p[0..] == p;
    forall i | 1 <= i < |p| ensures Clash(a, p[i..]) {
      assert p[i] == p[1..][i - 1];
      assert p[i..][0] == p[i];
    }
  }

  /** If the output from `i` begins like `u`, so did the input. */
  lemma {:induction false} ReplaceAllReflects(s: string, pat: string, rep: string, i: nat, u: string)
    requires |pat| > 0 && i <= |s|
    requires ClashesWithSuffixes(rep, u)
    ensures MatchesAt(ReplaceAllFrom(s, pat, rep, i), 0, u) ==> MatchesAt(s, i, u)
    decreases |u|
  {
    if |u| > 0 && i < |s| {
      var out := ReplaceAllFrom(s, pat, rep, i);
      if MatchesAt(s, i, pat) {
        assert u[0..] == u;
        ClashBlocks(rep, u, ReplaceAllFrom(s, pat, rep, i + |pat|));
      } else {
        forall j | 0 <= j < |u[1..]| ensures Clash(rep, u[1..][j..]) {
          assert u[1..][j..] == u[j + 1..];
        }
        ReplaceAllReflects(s, pat, rep, i + 1, u[1..]);
        MatchesCons(out, u);
        assert out[1..] == ReplaceAllFrom(s, pat, rep, i + 1);
        MatchesCons(s[i..], u);
        MatchesDrop(s, i, 0, u);
        MatchesDrop(s, i + 1, 0, u[1..]);
        assert s[i..][1..] == s[i + 1..];
      }
    }
  }

  /**
   * A global replacement leaves no match of `q` behind, provided every match of `q` in the
   * input is a match of `pat` and the replacement can neither hold nor finish a match of `q`.
   * With `q == pat` this says the pattern is gone; otherwise that the step creates no `q`.
   */
  lemma {:induction false} ReplaceAllFree(s: string, pat: string, rep: string, q: string, i: nat)
    requires |pat| > 0 && |q| > 0 && i <= |s|
    requires forall k: nat :: i <= k && MatchesAt(s, k, q) ==> MatchesAt(s, k, pat)
    requires SuffixesClash(rep, q) && ClashesWithSuffixes(rep, q[1..])
    ensures FreeFrom(ReplaceAllFrom(s, pat, rep, i), q, 0)
    decreases |s| - i
  {
    if i < |s| {
      var out := ReplaceAllFrom(s, pat, rep, i);
      if MatchesAt(s, i, pat) {
        var rest := ReplaceAllFrom(s, pat, rep, i + |pat|);
        ReplaceAllFree(s, pat, rep, q, i + |pat|);
        forall k: nat ensures !MatchesAt(out, k, q) {
          if k < |rep| {
            SuffixClashBlocks(rep, k, q, rest);
          } else {
            MatchesDrop(out, |rep|, k - |rep|, q);
            assert out[|rep|..] == rest;
          }
        }
      } else {
        var rest := ReplaceAllFrom(s, pat, rep, i + 1);
        ReplaceAllFree(s, pat, rep, q, i + 1);
        ReplaceAllReflects(s, pat, rep, i + 1, q[1..]);
        forall k: nat ensures !MatchesAt(out, k, q) {
          if k == 0 {
            MatchesCons(out, q);
            assert out[1..] == rest;
            MatchesCons(s[i..], q);
            MatchesDrop(s, i, 0, q);
            MatchesDrop(s, i + 1, 0, q[1..]);
            assert s[i..][1..] == s[i + 1..];
          } else {
            MatchesDrop(out, 1, k - 1, q);
            assert out[1..] == rest;
          }
        }
      }
    }
  }

  /** Three pieces, each clashing with `p` only at its front, make a string that holds no `p`. */
  lemma SuffixesClashPieces(a: string, b: string, c: string, p: string, ja: nat, jb: nat, jc: nat)
    requires ja < |a| && ja < |p| && !Fits(a[ja], p[ja])
    requires jb < |b| && jb < |p| && !Fits(b[jb], p[jb])
    requires jc < |c| && jc < |p| && !Fits(c[jc], p[jc])
    requires p[0] != '"' && p[0] !in a[1..] && p[0] !in b[1..] && p[0] !in c[1..]
    ensures SuffixesClash(a + b + c, p)
  {
    SuffixesClashByFirst(a, p, ja);
    SuffixesClashByFirst(b, p, jb);
    SuffixesClashByFirst(c, p, jc);
    SuffixesClashConcat(a, b, p);
    SuffixesClashConcat(a + b, c, p);
  }

  /** `a` clashes with every suffix of `x + y` when it does so piece by piece from the front. */
  lemma ClashesWithSuffixesPieces(a: string, x: string, y: string, jx: nat, jy: nat)
    requires jx < |a| && jx < |x| && !Fits(a[jx], x[jx])
    requires jy < |a| && jy < |y| && !Fits(a[jy], y[jy])
    requires !IsQuote(a[0]) && a[0] !in x[1..] && a[0] !in y[1..]
    ensures ClashesWithSuffixes(a, x + y)
  {
    ClashesWithSuffixesByFirst(a, x, jx);
    ClashesWithSuffixesByFirst(a, y, jy);
    ClashesWithSuffixesConcat(a, x, y);
  }

  lemma ToggleHoldsNoToggle()
    ensures SuffixesClash(ToggleReplacement, TogglePattern)
  {
    SuffixesClashPieces("data-bs-", "toggle=\"mo", "dal\"", TogglePattern, 5, 0, 2);
    assert ToggleReplacement == "data-bs-" + "toggle=\"mo" + "dal\"";
  }

  lemma ToggleFinishesNoToggle()
    ensures ClashesWithSuffixes(ToggleReplacement, TogglePattern[1..])
  {
    ClashesWithSuffixesPieces(ToggleReplacement, "ata-toggle=\"mo", "dal\"", 0, 2);
    assert TogglePattern[1..] == "ata-toggle=\"mo" + "dal\"";
  }

  lemma TargetHoldsNoTarget()
    ensures SuffixesClash(TargetReplacement, TargetPattern)
  {
    SuffixesClashPieces("data-bs-", "target", "=", TargetPattern, 5, 0, 0);
    assert TargetReplacement == "data-bs-" + "target" + "=";
  }

  lemma TargetFinishesNoTarget()
    ensures ClashesWithSuffixes(TargetReplacement, TargetPattern[1..])
  {
    ClashesWithSuffixesPieces(TargetReplacement, "ata-", "target=", 0, 0);
    assert TargetPattern[1..] == "ata-" + "target=";
  }

  lemma TargetHoldsNoToggle()
    ensures SuffixesClash(TargetReplacement, TogglePattern)
  {
    SuffixesClashPieces("data-bs-", "target", "=", TogglePattern, 5, 0, 0);
    assert TargetReplacement == "data-bs-" + "target" + "=";
  }

  lemma TargetFinishesNoToggle()
    ensures ClashesWithSuffixes(TargetReplacement, TogglePattern[1..])
  {
    ClashesWithSuffixesPieces(TargetReplacement, "ata-toggle=\"mo", "dal\"", 0, 2);
    assert TogglePattern[1..] == "ata-toggle=\"mo" + "dal\"";
  }

  lemma DismissHoldsNoDismiss()
    ensures SuffixesClash(DismissReplacement, DismissPattern)
  {
    SuffixesClashPieces("data-bs-", "dismiss=\"mo", "dal\"", DismissPattern, 5, 1, 2);
    assert DismissReplacement == "data-bs-" + "dismiss=\"mo" + "dal\"";
  }

  lemma DismissFinishesNoDismiss()
    ensures ClashesWithSuffixes(DismissReplacement, DismissPattern[1..])
  {
    ClashesWithSuffixesPieces(DismissReplacement, "ata-", "dismiss=\"mo", 0, 1);
    ClashesWithSuffixesByFirst(DismissReplacement, "dal\"", 2);
    ClashesWithSuffixesConcat(DismissReplacement, "ata-" + "dismiss=\"mo", "dal\"");
    assert DismissPattern[1..] == "ata-" + "dismiss=\"mo" + "dal\"";
  }

  lemma DismissHoldsNoTarget()
    ensures SuffixesClash(DismissReplacement, TargetPattern)
  {
    SuffixesClashPieces("data-bs-", "dismiss=\"mo", "dal\"", TargetPattern, 5, 1, 2);
    assert DismissReplacement == "data-bs-" + "dismiss=\"mo" + "dal\"";
  }

  lemma DismissFinishesNoTarget()
    ensures ClashesWithSuffixes(DismissReplacement, TargetPattern[1..])
  {
    ClashesWithSuffixesPieces(DismissReplacement, "ata-", "target=", 0, 0);
    assert TargetPattern[1..] == "ata-" + "target=";
  }

  lemma DismissHoldsNoToggle()
    ensures SuffixesClash(DismissReplacement, TogglePattern)
  {
    SuffixesClashPieces("data-bs-", "dismiss=\"mo", "dal\"", TogglePattern, 5, 1, 2);
    assert DismissReplacement == "data-bs-" + "dismiss=\"mo" + "dal\"";
  }

  lemma DismissFinishesNoToggle()
    ensures ClashesWithSuffixes(DismissReplacement, TogglePattern[1..])
  {
    ClashesWithSuffixesPieces(DismissReplacement, "ata-toggle=\"mo", "dal\"", 0, 2);
    assert TogglePattern[1..] == "ata-toggle=\"mo" + "dal\"";
  }
}
