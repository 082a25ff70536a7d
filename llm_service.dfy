// The simulated "LLM" service of src/utils/llmService.ts: the modal converter, the issue
// analyzer, the response dispatch and the prompt/error wrapper around them.

module LlmService {
  import opened Wrappers
  import opened Text
  import opened AttributeRewrite
  import opened ButtonStyle
  import opened ModalHeader

  // ---------------------------------------------------------------------------------------
  // convertBootstrapModal
  // ---------------------------------------------------------------------------------------

  /** The five rewriting steps of the converter, applied in the order the source applies them. */
  function ConvertedModal(html: string): string {
    var headers := ConvertHeaders(html);
    var toggles := ReplaceAll(headers, TogglePattern, ToggleReplacement);
    var targets := ReplaceAll(toggles, TargetPattern, TargetReplacement);
    var dismisses := ReplaceAll(targets, DismissPattern, DismissReplacement);
    ButtonStyle.ButtonStyle(dismisses)
  }

  /**
   * No Bootstrap 3 modal attribute is left: neither quote style of `data-toggle="modal"` and
   * `data-dismiss="modal"`, and no `data-target=` at all.
   */
  ghost predicate NoLegacyModalAttributes(s: string) {
    FreeFrom(s, TogglePattern, 0) && FreeFrom(s, TargetPattern, 0) && FreeFrom(s, DismissPattern, 0)
  }

  /** `convertedHTML` is reassigned by each replacement in turn. */
  method ConvertBootstrapModal(html: string) returns (converted: string)
    ensures converted == ConvertedModal(html)
    ensures NoLegacyModalAttributes(converted)
  {
    converted := html;
    converted := ConvertHeaders(converted);
    converted := ReplaceAll(converted, TogglePattern, ToggleReplacement);
    converted := ReplaceAll(converted, TargetPattern, TargetReplacement);
    converted := ReplaceAll(converted, DismissPattern, DismissReplacement);
    converted := ButtonStyle.ButtonStyle(converted);
    ConvertedModalLegacyFree(html);
  }

  /** The toggle step leaves no toggle attribute. */
  lemma ToggleStepFree(s: string)
    ensures FreeFrom(ReplaceAll(s, TogglePattern, ToggleReplacement), TogglePattern, 0)
  {
    ToggleHoldsNoToggle();
    ToggleFinishesNoToggle();
    ReplaceAllFree(s, TogglePattern, ToggleReplacement, TogglePattern, 0);
  }

  /** The target step leaves no target attribute and introduces no toggle attribute. */
  lemma TargetStepFree(s: string)
    requires FreeFrom(s, TogglePattern, 0)
    ensures var out := ReplaceAll(s, TargetPattern, TargetReplacement);
      FreeFrom(out, TargetPattern, 0) && FreeFrom(out, TogglePattern, 0)
  {
    TargetHoldsNoTarget();
    TargetFinishesNoTarget();
    ReplaceAllFree(s, TargetPattern, TargetReplacement, TargetPattern, 0);
    TargetHoldsNoToggle();
    TargetFinishesNoToggle();
    ReplaceAllFree(s, TargetPattern, TargetReplacement, TogglePattern, 0);
  }

  /** The dismiss step leaves no dismiss attribute and introduces neither earlier form. */
  lemma DismissStepFree(s: string)
    requires FreeFrom(s, TogglePattern, 0) && FreeFrom(s, TargetPattern, 0)
    ensures NoLegacyModalAttributes(ReplaceAll(s, DismissPattern, DismissReplacement))
  {
    DismissHoldsNoDismiss();
    DismissFinishesNoDismiss();
    ReplaceAllFree(s, DismissPattern, DismissReplacement, DismissPattern, 0);
    DismissHoldsNoTarget();
    DismissFinishesNoTarget();
    ReplaceAllFree(s, DismissPattern, DismissReplacement, TargetPattern, 0);
    DismissHoldsNoToggle();
    DismissFinishesNoToggle();
    ReplaceAllFree(s, DismissPattern, DismissReplacement, TogglePattern, 0);
  }

  /** Whatever the input, the converted page holds no Bootstrap 3 modal attribute. */
  lemma ConvertedModalLegacyFree(html: string)
    ensures NoLegacyModalAttributes(ConvertedModal(html))
  {
    var toggles := ReplaceAll(ConvertHeaders(html), TogglePattern, ToggleReplacement);
    ToggleStepFree(ConvertHeaders(html));
    var targets := ReplaceAll(toggles, TargetPattern, TargetReplacement);
    TargetStepFree(toggles);
    var dismisses := ReplaceAll(targets, DismissPattern, DismissReplacement);
    DismissStepFree(targets);
    LegacyFormsSurviveButtonStep(dismisses, TogglePattern);
    LegacyFormsSurviveButtonStep(dismisses, TargetPattern);
    LegacyFormsSurviveButtonStep(dismisses, DismissPattern);
  }

  // ---------------------------------------------------------------------------------------
  // analyzeBootstrapIssues
  // ---------------------------------------------------------------------------------------

  // The messages are the analyzer's texts word for word. Each is written as a few shorter
  // literals joined by `+`: the solver reasons about a concatenation piece by piece, while
  // facts about one long literal (that it holds no line break) are out of its reach.
  const ToggleIssue := "Modal triggers use data-toggle" + " instead of data-bs-toggle"
  const CloseClassIssue := "Modal close buttons should use" + " btn-close class instead of " + "close class"
  const ButtonIssue := "btn-default class should be " + "replaced with btn-secondary"
  const JQueryIssue := "jQuery dependency detected - " + "Bootstrap 5 doesn't require " + "jQuery"
  const HeaderOrderIssue := "Modal header has close button " + "before title - Bootstrap 5 "
    + "places title first, then " + "close button"

  /** The analyzer's messages, in the order its checks run. */
  const IssueMessages := [ToggleIssue, CloseClassIssue, ButtonIssue, JQueryIssue, HeaderOrderIssue]

  /** Check `k` of the analyzer fires on `html`; the first four are plain `includes` tests. */
  predicate Fires(html: string, k: nat) {
    match k
    case 0 => Contains(html, "data-toggle=\"modal\"")
    case 1 => Contains(html, "class=\"close\"") && Contains(html, "data-dismiss=\"modal\"")
    case 2 => Contains(html, "btn-default")
    case 3 => Contains(html, "jquery") || Contains(html, "jQuery")
    case 4 => CloseBeforeTitle(html)
    case _ => false
  }

  /** The `issues` array once the first `k` checks have run. */
  function Pushed(html: string, k: nat): (r: seq<string>)
    requires k <= |IssueMessages|
    ensures |r| <= k
    ensures forall m <- r :: m in IssueMessages[..k]
  {
    if k == 0 then []
    else Pushed(html, k - 1) + (if Fires(html, k - 1) then [IssueMessages[k - 1]] else [])
  }

  /** What `analyzeBootstrapIssues` returns. */
  function Analysis(html: string): seq<string> {
    Pushed(html, |IssueMessages|)
  }

  method AnalyzeBootstrapIssues(html: string) returns (issues: seq<string>)
    ensures issues == Analysis(html)
  {
    issues := [];
    if Contains(html, "data-toggle=\"modal\"") {
      issues := issues + [ToggleIssue];
    }
    assert issues == Pushed(html, 1);
    if Contains(html, "class=\"close\"") && Contains(html, "data-dismiss=\"modal\"") {
      issues := issues + [CloseClassIssue];
    }
    assert issues == Pushed(html, 2);
    if Contains(html, "btn-default") {
      issues := issues + [ButtonIssue];
    }
    assert issues == Pushed(html, 3);
    if Contains(html, "jquery") || Contains(html, "jQuery") {
      issues := issues + [JQueryIssue];
    }
    assert issues == Pushed(html, 4);
    if CloseBeforeTitle(html) {
      issues := issues + [HeaderOrderIssue];
    }
  }

  /** The five messages are pairwise different and hold no line break. */
  lemma MessagesDistinct()
    ensures forall i, j :: 0 <= i < j < |IssueMessages| ==> IssueMessages[i] != IssueMessages[j]
    ensures forall m <- IssueMessages :: '\n' !in m
  {
    assert |ToggleIssue| == 56 && |CloseClassIssue| == 69 && |ButtonIssue| == 55;
    assert |JQueryIssue| == 63 && |HeaderOrderIssue| == 94;
    MessagesOneLine();
  }

  lemma MessagesOneLine()
    ensures '\n' !in ToggleIssue && '\n' !in CloseClassIssue && '\n' !in ButtonIssue
    ensures '\n' !in JQueryIssue && '\n' !in HeaderOrderIssue
  {
    ToggleIssueOneLine();
    CloseClassIssueOneLine();
    ButtonIssueOneLine();
    JQueryIssueOneLine();
    HeaderOrderIssueOneLine();
  }

  // One lemma per message: proving all five line-break facts in one obligation is too costly.
  lemma ToggleIssueOneLine() ensures '\n' !in ToggleIssue {}
  lemma CloseClassIssueOneLine() ensures '\n' !in CloseClassIssue {}
  lemma ButtonIssueOneLine() ensures '\n' !in ButtonIssue {}
  lemma JQueryIssueOneLine() ensures '\n' !in JQueryIssue {}
  lemma HeaderOrderIssueOneLine() ensures '\n' !in HeaderOrderIssue {}

  /** Message `j` has been pushed after `k` checks iff check `j` is among them and fired. */
  lemma {:induction false} PushedHolds(html: string, k: nat, j: nat)
    requires k <= |IssueMessages| && j < |IssueMessages|
    ensures IssueMessages[j] in Pushed(html, k) <==> j < k && Fires(html, j)
  {
    MessagesDistinct();
    if k > 0 {
      PushedHolds(html, k - 1, j);
      if IssueMessages[j] in Pushed(html, k - 1) {
        assert IssueMessages[j] in IssueMessages[..k - 1];
      }
    }
  }

  /** The pushed messages appear in the order of the checks, each drawn from the table. */
  lemma {:induction false} PushedSubsequence(html: string, k: nat)
    requires k <= |IssueMessages|
    ensures IsSubsequence(Pushed(html, k), IssueMessages[..k])
  {
    if k > 0 {
      PushedSubsequence(html, k - 1);
      var before := Pushed(html, k - 1);
      assert IssueMessages[..k] == IssueMessages[..k - 1] + [IssueMessages[k - 1]];
      if Fires(html, k - 1) {
        assert (before + [IssueMessages[k - 1]])[..|before|] == before;
      } else {
        assert Pushed(html, k) == before;
        SubsequenceSnoc(before, IssueMessages[..k - 1], IssueMessages[k - 1]);
      }
    }
  }

  /** No two positions of `r` hold the same message. */
  predicate NoRepeats(r: seq<string>) {
    forall a, b :: 0 <= a < b < |r| ==> r[a] != r[b]
  }

  /** No message is pushed twice. */
  lemma {:induction false} PushedDistinct(html: string, k: nat)
    requires k <= |IssueMessages|
    ensures NoRepeats(Pushed(html, k))
  {
    if k > 0 {
      PushedDistinct(html, k - 1);
      var before := Pushed(html, k - 1);
      if Fires(html, k - 1) {
        var x := IssueMessages[k - 1];
        if x in before {
          PushedHolds(html, k - 1, k - 1);
          assert false;
        }
        var r := before + [x];
        forall a, b | 0 <= a < b < |r|
          ensures r[a] != r[b]
        {
          assert r[a] == before[a] && before[a] in before;
          if b < |before| {
            assert r[b] == before[b];
          }
        }
        assert Pushed(html, k) == r;
      }
    }
  }

  /**
   * The analysis is a subsequence of the five messages in their fixed order, with no message
   * twice, and each message is reported exactly when its check fires.
   */
  lemma AnalysisShape(html: string)
    ensures IsSubsequence(Analysis(html), IssueMessages)
    ensures NoRepeats(Analysis(html))
    ensures forall j :: 0 <= j < |IssueMessages| ==> (IssueMessages[j] in Analysis(html) <==> Fires(html, j))
  {
    PushedSubsequence(html, |IssueMessages|);
    assert IssueMessages[..|IssueMessages|] == IssueMessages;
    PushedDistinct(html, |IssueMessages|);
    forall j | 0 <= j < |IssueMessages|
      ensures IssueMessages[j] in Analysis(html) <==> Fires(html, j)
    {
      PushedHolds(html, |IssueMessages|, j);
    }
  }

  /** The five checks, one by one, as literal tests on the page. */
  lemma AnalysisChecks(html: string)
    ensures ToggleIssue in Analysis(html) <==> Contains(html, "data-toggle=\"modal\"")
    ensures CloseClassIssue in Analysis(html)
      <==> Contains(html, "class=\"close\"") && Contains(html, "data-dismiss=\"modal\"")
    ensures ButtonIssue in Analysis(html) <==> Contains(html, "btn-default")
    ensures JQueryIssue in Analysis(html) <==> Contains(html, "jquery") || Contains(html, "jQuery")
    ensures HeaderOrderIssue in Analysis(html) <==> ChainExists(html, CloseFirstChain, 0)
  {
    PushedHolds(html, 5, 0);
    PushedHolds(html, 5, 1);
    PushedHolds(html, 5, 2);
    PushedHolds(html, 5, 3);
    PushedHolds(html, 5, 4);
  }

  /** Joining separator-free messages with `"\n"` and splitting again recovers them. */
  lemma {:induction false} AnalysisJoined(html: string)
    ensures var r, c := Analysis(html), Join(Analysis(html), "\n");
      (c == "" <==> r == []) && (r != [] ==> Split(c, '\n') == r)
  {
    var r := Analysis(html);
    MessagesDistinct();
    assert forall m <- r :: m in IssueMessages by {
      assert IssueMessages[..|IssueMessages|] == IssueMessages;
    }
    if r != [] {
      SplitJoin(r, '\n');
      assert r[0] in IssueMessages;
      assert |r[0]| > 0;
      assert |r| > 1 ==> Join(r, "\n")[0] == r[0][0];
    }
  }

  // ---------------------------------------------------------------------------------------
  // simulateLLMResponse and analyzeBootstrapCode
  // ---------------------------------------------------------------------------------------

  datatype PromptType = Analyze | Convert | Suggest

  /** `LLMResponse`; `error` is the optional field. */
  datatype LlmResponse = LlmResponse(success: bool, content: string, error: Option<string>)

  const SuggestText := "Consider using native Bootstrap 5 components for modals, dropdowns, and tooltips instead of jQuery plugins. Bootstrap 5 uses vanilla JavaScript and data-bs-* attributes."

  /** The response `simulateLLMResponse` resolves to. */
  function Simulated(t: PromptType, html: string): LlmResponse {
    match t
    case Convert => LlmResponse(true, ConvertedModal(html), None)
    case Analyze => LlmResponse(true, Join(Analysis(html), "\n"), None)
    case Suggest => LlmResponse(true, SuggestText, None)
  }

  /** The dispatch on the prompt type; the prompt itself is not consulted. */
  method SimulateLlmResponse(prompt: string, t: PromptType, html: string) returns (response: LlmResponse)
    ensures response == Simulated(t, html)
    ensures response.success && response.error.None?
    ensures t == Convert ==> NoLegacyModalAttributes(response.content)
    ensures t == Analyze ==> (response.content == "" <==> Analysis(html) == [])
  {
    match t
    case Convert =>
      var converted := ConvertBootstrapModal(html);
      response := LlmResponse(true, converted, None);
    case Analyze =>
      var issues := AnalyzeBootstrapIssues(html);
      response := LlmResponse(true, Join(issues, "\n"), None);
      AnalysisJoined(html);
    case Suggest =>
      response := LlmResponse(true, SuggestText, None);
  }

  /** The instruction text put in front of the page, one per prompt type. */
  function PromptHead(t: PromptType): string {
    match t
    case Analyze =>
      "Analyze this Bootstrap 3 HTML and identify all Bootstrap 3 specific elements, classes, and attributes:\n      "
    case Convert =>
      "Convert this Bootstrap 3 HTML to Bootstrap 5. Focus on:\n"
      + "      1. Replacing data-toggle with data-bs-toggle\n"
      + "      2. Replacing data-target with data-bs-target\n"
      + "      3. Replacing data-dismiss with data-bs-dismiss\n"
      + "      4. Fixing modal headers (title before close button)\n"
      + "      5. Replacing .btn-default with .btn-secondary\n"
      + "      6. Updating all deprecated classes\n"
      + "      \n"
      + "      Here's the HTML:\n      "
    case Suggest =>
      "Suggest improvements for migrating this Bootstrap 3 code to Bootstrap 5:\n      "
  }

  /** The prompt: the instruction text, then at most the first 1500 characters of the page. */
  function Prompt(t: PromptType, html: string): (p: string)
    ensures PromptHead(t) <= p
    ensures |p| <= |PromptHead(t)| + 1500
    ensures p[|PromptHead(t)|..] <= html
  {
    PromptHead(t) + Take(html, 1500)
  }

  /** Nothing past the first 1500 characters of the page reaches the prompt. */
  lemma PromptSeesOnlyPrefix(t: PromptType, html: string, other: string)
    requires Take(html, 1500) == Take(other, 1500)
    ensures Prompt(t, html) == Prompt(t, other)
  {
  }

  /** A value the awaited call may throw: an `Error` with its message, or anything else. */
  datatype Thrown = ErrorObject(message: string) | OtherValue

  function ErrorText(e: Thrown): string {
    match e
    case ErrorObject(m) => m
    case OtherValue => "Unknown error in LLM service"
  }

  /**
   * `analyzeBootstrapCode`: builds the prompt and awaits the simulated response; `thrown` is
   * what the awaited call throws, if anything, and the catch turns it into a failed response.
   */
  method AnalyzeBootstrapCode(html: string, t: PromptType, thrown: Option<Thrown>) returns (response: LlmResponse)
    ensures response.success <==> thrown.None?
    ensures thrown.None? ==> response == Simulated(t, html)
    ensures thrown.Some? ==> response == LlmResponse(false, "", Some(ErrorText(thrown.value)))
  {
    var prompt := Prompt(t, html);
    if thrown.None? {
      response := SimulateLlmResponse(prompt, t, html);
    } else {
      response := LlmResponse(false, "", Some(ErrorText(thrown.value)));
    }
  }
}
