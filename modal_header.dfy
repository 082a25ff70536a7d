/**
 * The two modal-header patterns of the simulated converter (llmService.ts:91 and 135).
 * Each is a chain of pieces separated by lazy gaps (`[\s\S]*?`); it is read here as a list
 * of probes, each found at its first position after the previous one ends.
 */
module ModalHeader {
  import opened Wrappers
  import opened Text
  import opened AttributeRewrite

  /** `<div class=["']modal-header["']>`: the only opening tag either pattern accepts. */
  const HeaderOpen := "<div class=\"modal-header\">"

  /** One piece of a header pattern. */
  datatype Probe =
    | Text(pat: string)   // fixed text with `["']` quote classes
    | Heading             // `<h\d`
    | HeadingClose        // `<\/h\d>`
    | RunClass(word: string)   // `class=["'][^"']*word[^"']*["']`
    | LineClass(word: string)  // `class=["'](?:.*?)word(?:.*?)["']`, `.` not crossing a line end

  /** No line terminator in `s[a..b]`. */
  predicate LineFree(s: string, a: nat, b: nat)
    requires a <= b <= |s|
  {
    forall x | a <= x < b :: !IsLineTerminator(s[x])
  }

  /** `class=` and a quote at `c`. */
  predicate ClassOpenAt(s: string, c: nat) {
    At(s, c, "class=") && c + 6 < |s| && IsQuote(s[c + 6])
  }

  /** Where a quote-free class value holding `w` ends after its closing quote, or -1. */
  function RunClassEnd(s: string, c: nat, w: string): (r: int)
    ensures r != -1 ==> c + 8 <= r <= |s| && IsQuote(s[r - 1])
  {
    if !ClassOpenAt(s, c) then -1
    else
      var q := FirstQuoteFrom(s, c + 7);
      if q >= 0 && Contains(s[c + 7..q], w) then q + 1 else -1
  }

  /**
   * The lazy class form: the first `w` after the opening quote and then the first quote
   * after it, neither reached across a line end; the end after that quote, or -1.
   */
  function LineClassEnd(s: string, c: nat, w: string): (r: int)
    ensures r != -1 ==> c + 8 + |w| <= r <= |s| && IsQuote(s[r - 1])
  {
    if !ClassOpenAt(s, c) then -1
    else
      var k := IndexOfFrom(s, w, c + 7);
      if k < 0 || !LineFree(s, c + 7, k) then -1
      else
        var q := FirstQuoteFrom(s, k + |w|);
        if q < 0 || !LineFree(s, k + |w|, q) then -1 else q + 1
  }

  /** The probe matches at `x`. */
  predicate ProbeAt(s: string, x: nat, p: Probe) {
    match p
    case Text(t) => |t| > 0 && MatchesAt(s, x, t)
    case Heading => At(s, x, "<h") && x + 2 < |s| && IsDigit(s[x + 2])
    case HeadingClose => At(s, x, "</h") && x + 4 < |s| && IsDigit(s[x + 3]) && s[x + 4] == '>'
    case RunClass(w) => RunClassEnd(s, x, w) != -1
    case LineClass(w) => LineClassEnd(s, x, w) != -1
  }

  /** Where a probe matched at `x` ends. */
  function ProbeEnd(s: string, x: nat, p: Probe): (r: nat)
    requires ProbeAt(s, x, p)
    ensures x < r <= |s|
  {
    match p
    case Text(t) => x + |t|
    case Heading => x + 3
    case HeadingClose => x + 5
    case RunClass(w) => RunClassEnd(s, x, w)
    case LineClass(w) => LineClassEnd(s, x, w)
  }

  /** The first position at or after `from` where the probe matches, or -1. */
  function FirstProbe(s: string, p: Probe, from: nat): (r: int)
    ensures r == -1 || (from <= r && ProbeAt(s, r, p))
    ensures forall k: nat :: from <= k && (r == -1 || k < r) ==> !ProbeAt(s, k, p)
    decreases |s| - from
  {
    if from >= |s| then -1
    else if ProbeAt(s, from, p) then from
    else FirstProbe(s, p, from + 1)
  }

  /** `ps` places each probe in turn, each at or after the end of the one before. */
  ghost predicate Placed(s: string, probes: seq<Probe>, from: nat, ps: seq<nat>) {
    |ps| == |probes|
    && (forall k | 0 <= k < |ps| :: ProbeAt(s, ps[k], probes[k]))
    && (|ps| > 0 ==> from <= ps[0])
    && (forall k | 0 < k < |ps| :: ProbeEnd(s, ps[k - 1], probes[k - 1]) <= ps[k])
  }

  /** The whole chain matches somewhere at or after `from`: what a regex search asks. */
  ghost predicate ChainExists(s: string, probes: seq<Probe>, from: nat)
    decreases |probes|
  {
    |probes| == 0
    || exists x: nat :: from <= x && ProbeAt(s, x, probes[0])
                        && ChainExists(s, probes[1..], ProbeEnd(s, x, probes[0]))
  }

  /** Each probe at its first position after the previous one: no backtracking. */
  function FirstFit(s: string, probes: seq<Probe>, from: nat): (r: Option<seq<nat>>)
    ensures r.Some? ==> Placed(s, probes, from, r.value)
    decreases |probes|
  {
    if |probes| == 0 then Some([])
    else
      var x := FirstProbe(s, probes[0], from);
      if x < 0 then None
      else match FirstFit(s, probes[1..], ProbeEnd(s, x, probes[0]))
        case None => None
        case Some(xs) => Some([x] + xs)
  }

  lemma IndexOfMonotone(s: string, t: string, a: nat, b: nat)
    requires a <= b && IndexOfFrom(s, t, b) >= 0
    ensures 0 <= IndexOfFrom(s, t, a) <= IndexOfFrom(s, t, b)
  {
  }

  lemma FirstQuoteMonotone(s: string, a: nat, b: nat)
    requires a <= b && FirstQuoteFrom(s, b) >= 0
    ensures 0 <= FirstQuoteFrom(s, a) <= FirstQuoteFrom(s, b)
  {
  }

  /** A probe that matches earlier also ends no later. */
  lemma ProbeEndMonotone(s: string, x: nat, y: nat, p: Probe)
    requires x <= y && ProbeAt(s, x, p) && ProbeAt(s, y, p)
    ensures ProbeEnd(s, x, p) <= ProbeEnd(s, y, p)
  {
    match p
    case RunClass(w) =>
      FirstQuoteMonotone(s, x + 7, y + 7);
    case LineClass(w) =>
      var kx, ky := IndexOfFrom(s, w, x + 7), IndexOfFrom(s, w, y + 7);
      IndexOfMonotone(s, w, x + 7, y + 7);
      FirstQuoteMonotone(s, kx + |w|, ky + |w|);
    case _ =>
  }

  /** A chain that can start at `from` can start anywhere before it. */
  lemma ChainExistsEarlier(s: string, probes: seq<Probe>, a: nat, b: nat)
    requires a <= b && ChainExists(s, probes, b)
    ensures ChainExists(s, probes, a)
  {
    if |probes| > 0 {
      var x: nat :| b <= x && ProbeAt(s, x, probes[0])
                     && ChainExists(s, probes[1..], ProbeEnd(s, x, probes[0]));
      assert a <= x;
    }
  }

  /**
   * Taking every probe at its first position loses nothing: the chain found without
   * backtracking exists exactly when some placement of the chain exists.
   */
  lemma {:induction false} FirstFitExact(s: string, probes: seq<Probe>, from: nat)
    ensures FirstFit(s, probes, from).Some? <==> ChainExists(s, probes, from)
    decreases |probes|
  {
    if |probes| > 0 {
      var x := FirstProbe(s, probes[0], from);
      if ChainExists(s, probes, from) {
        var y: nat :| from <= y && ProbeAt(s, y, probes[0])
                       && ChainExists(s, probes[1..], ProbeEnd(s, y, probes[0]));
        assert 0 <= x <= y;
        ProbeEndMonotone(s, x, y, probes[0]);
        ChainExistsEarlier(s, probes[1..], ProbeEnd(s, x, probes[0]), ProbeEnd(s, y, probes[0]));
        FirstFitExact(s, probes[1..], ProbeEnd(s, x, probes[0]));
      }
      if x >= 0 {
        FirstFitExact(s, probes[1..], ProbeEnd(s, x, probes[0]));
      }
    }
  }

  /** The placement found never reaches back before `from`. */
  lemma {:induction false} PlacedAfter(s: string, probes: seq<Probe>, from: nat, ps: seq<nat>, k: nat)
    requires Placed(s, probes, from, ps) && k < |ps|
    ensures from <= ps[k]
  {
    if k > 0 {
      PlacedAfter(s, probes, from, ps, k - 1);
    }
  }

  /** The analyzer's pattern (llmService.ts:135), without a capture. */
  const CloseFirstChain := [Text(HeaderOpen), Text("<button"), RunClass("close"), Text(DismissPattern),
                            Text(">"), Text("</button>"), Heading]

  /** `modalHeaderClosePattern.test(html)`: some header has its close button before a heading. */
  function CloseBeforeTitle(html: string): (r: bool)
    ensures r <==> ChainExists(html, CloseFirstChain, 0)
  {
    FirstFitExact(html, CloseFirstChain, 0);
    FirstFit(html, CloseFirstChain, 0).Some?
  }

  /**
   * What the converter's pattern (llmService.ts:91) needs after the opening tag: the close
   * button with its class and dismiss attribute, a heading with a `modal-title` class, the
   * `>` that ends its tag, a closing heading tag and `</div>`.
   */
  const HeaderTail := [Text("<button"), LineClass("close"), Text(DismissPattern), Text(">"),
                       Text("</button>"), Heading, LineClass("modal-title"), Text(">"),
                       HeadingClose, Text("</div>")]

  /** The last three pieces of a placed header tail: `>`, a closing heading tag, `</div>`. */
  lemma HeaderTailEnd(s: string, from: nat, ps: seq<nat>)
    requires Placed(s, HeaderTail, from, ps)
    ensures |ps| == 10 && from <= ps[7] && s[ps[7]] == '>' && ps[7] + 1 <= ps[8] < ps[9]
    ensures ProbeAt(s, ps[8], HeadingClose) && ps[9] + 6 <= |s| && At(s, ps[9], "</div>")
  {
    assert HeaderTail[7] == Text(">") && HeaderTail[8] == HeadingClose && HeaderTail[9] == Text("</div>");
    PlacedAfter(s, HeaderTail, from, ps, 7);
    assert ProbeAt(s, ps[7], Text(">")) && ProbeAt(s, ps[8], HeadingClose);
    assert Fits(s[ps[7] + 0], ">"[0]);
    assert ProbeAt(s, ps[9], Text("</div>"));
    assert ProbeEnd(s, ps[7], HeaderTail[7]) <= ps[8];
    assert ProbeEnd(s, ps[8], HeaderTail[8]) <= ps[9];
    MatchesPlainText(s, ps[9], "</div>");
  }

  /**
   * One matched legacy header: the title is `s[titleFrom..titleTo]`, between the `>` of the
   * heading tag and its closing tag; the match ends at `end`.
   */
  datatype HeaderMatch = HeaderMatch(titleFrom: nat, titleTo: nat, end: nat)

  /**
   * A header match at `i`: the title lies after the opening tag, right after a `>` and right
   * before a closing heading tag, and the match ends with `</div>`.
   */
  predicate HeaderShape(s: string, i: nat, m: HeaderMatch) {
    && i + |HeaderOpen| < m.titleFrom <= m.titleTo < m.end <= |s|
    && s[m.titleFrom - 1] == '>' && ProbeAt(s, m.titleTo, HeadingClose)
    && At(s, m.end - 6, "</div>")
  }

  lemma HeaderTailShape(s: string, i: nat, ps: seq<nat>)
    requires Placed(s, HeaderTail, i + |HeaderOpen|, ps)
    ensures |ps| == 10 && HeaderShape(s, i, HeaderMatch(ps[7] + 1, ps[8], ps[9] + 6))
  {
    HeaderTailEnd(s, i + |HeaderOpen|, ps);
    var m := HeaderMatch(ps[7] + 1, ps[8], ps[9] + 6);
    assert s[m.end - 6..m.end] == s[ps[9]..ps[9] + 6];
  }

  /** The converter's header pattern tried at `i`. */
  function HeaderAt(s: string, i: nat): (r: Option<HeaderMatch>)
    ensures r.Some? ==> HeaderShape(s, i, r.value)
  {
    if !MatchesAt(s, i, HeaderOpen) then None
    else
      match FirstFit(s, HeaderTail, i + |HeaderOpen|)
      case None => None
      case Some(ps) =>
        HeaderTailShape(s, i, ps);
        Some(HeaderMatch(ps[7] + 1, ps[8], ps[9] + 6))
  }

  /**
   * The header pattern matches at `i` exactly when `i` holds the literal opening tag and the
   * rest of the chain can be placed after it.
   */
  lemma HeaderAtExact(s: string, i: nat)
    ensures HeaderAt(s, i).Some? <==> MatchesAt(s, i, HeaderOpen) && ChainExists(s, HeaderTail, i + |HeaderOpen|)
  {
    FirstFitExact(s, HeaderTail, i + |HeaderOpen|);
  }

  /** What every matched header becomes: title first, then the Bootstrap 5 close button. */
  const HeaderDiv := "<div class=\"modal-header\">"
  const Indent := "\n      "
  const TitleOpen := "<h5 class=\"modal-title fs-5\">"
  const TitleClose := "</h5>"
  const CloseButton := "<button type=\"button\" class=\"btn-close\" data-bs-dismiss=\"modal\""
  const CloseRest := " aria-label=\"Close\"></button>"
  const HeaderEnd := "\n    </div>"
  const TitleLead := HeaderDiv + Indent + TitleOpen
  const CloseTail := TitleClose + Indent + CloseButton + CloseRest + HeaderEnd

  function HeaderTemplate(title: string): string {
    TitleLead + Trim(title) + CloseTail
  }

  /** `html.replace(modalHeaderRegex, …)` from `i` on, left to right without overlaps. */
  function ConvertHeadersFrom(s: string, i: nat): string
    requires i <= |s|
    decreases |s| - i
  {
    if i == |s| then ""
    else match HeaderAt(s, i)
      case Some(m) => HeaderTemplate(s[m.titleFrom..m.titleTo]) + ConvertHeadersFrom(s, m.end)
      case None => [s[i]] + ConvertHeadersFrom(s, i + 1)
  }

  function ConvertHeaders(s: string): string {
    ConvertHeadersFrom(s, 0)
  }

  /**
   * A converted header opens with the Bootstrap 5 header tag, then the `h5` title holding the
   * trimmed title, then the `btn-close` button: the title always precedes the close button.
   */
  lemma HeaderTemplateOrder(title: string)
    ensures var h, n := HeaderTemplate(title), |Trim(title)|;
      At(h, 0, HeaderDiv)
      && At(h, |HeaderDiv + Indent|, TitleOpen)
      && h[|TitleLead|..|TitleLead| + n] == Trim(title)
      && At(h, |TitleLead| + n, TitleClose)
      && At(h, |TitleLead| + n + |TitleClose + Indent|, CloseButton)
      && EndsWith(h, HeaderEnd)
  {
    TemplateShape(HeaderDiv, Indent, TitleOpen, Trim(title), TitleClose, Indent, CloseButton, CloseRest + HeaderEnd);
    assert CloseTail == TitleClose + Indent + CloseButton + (CloseRest + HeaderEnd);
    assert EndsWith(CloseRest + HeaderEnd, HeaderEnd);
  }

  /** Positions in a concatenation of eight parts, the shape of the header template. */
  lemma TemplateShape(a: string, b: string, c: string, t: string, d: string, e: string, f: string, g: string)
    ensures var h, l := (a + b + c) + t + (d + e + f + g), |a + b + c|;
      At(h, 0, a) && At(h, |a + b|, c) && h[l..l + |t|] == t
      && At(h, l + |t|, d) && At(h, l + |t| + |d + e|, f) && EndsWith(h, g)
  {
    var h, l := (a + b + c) + t + (d + e + f + g), |a + b + c|;
    assert h[0..|a|] == a;
    assert h[|a + b|..|a + b| + |c|] == c;
    assert h[l..l + |t|] == t;
    assert h[l + |t|..l + |t| + |d|] == d;
    assert h[l + |t| + |d + e|..l + |t| + |d + e| + |f|] == f;
    assert h[|h| - |g|..] == g;
  }

  /** Everything in a matched header but its title is discarded, and the title only trimmed. */
  lemma HeaderTemplateKeepsOnlyTitle(a: string, b: string)
    requires Trim(a) == Trim(b)
    ensures HeaderTemplate(a) == HeaderTemplate(b)
    ensures HeaderTemplate(Trim(a)) == HeaderTemplate(a)
  {
    TrimIdempotent(a);
  }

  /** Text without a legacy header opening tag passes the header step unchanged. */
  lemma {:induction false} ConvertHeadersUntouched(s: string, i: nat)
    requires i <= |s| && FreeFrom(s, HeaderOpen, i)
    ensures ConvertHeadersFrom(s, i) == s[i..]
    decreases |s| - i
  {
    if i < |s| {
      HeaderAtExact(s, i);
      ConvertHeadersUntouched(s, i + 1);
      assert s[i..] == [s[i]] + s[i + 1..];
    }
  }
}
