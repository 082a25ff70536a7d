// The step bar of src/components/ProgressIndicator.tsx: the five displayed steps and the
// predicates that decide which of them is active and which are complete.

module ProgressIndicator {
  import opened MigrationTypes

  /** One entry of the step bar. */
  datatype StepItem = StepItem(id: MigrationStep, caption: string)

  /** The displayed steps, in order; Idle, Complete and Error have no entry. */
  const Steps := [
    StepItem(Uploading, "Upload"),
    StepItem(Extracting, "Extract"),
    StepItem(Analyzing, "Analyze"),
    StepItem(Converting, "Convert"),
    StepItem(GeneratingReport, "Report")
  ]

  /** `steps.findIndex(step => step.id === s)` over the entries from `k` on. */
  function FindIndexFrom(s: MigrationStep, k: nat): (r: int)
    requires k <= |Steps|
    ensures r == -1 || k <= r < |Steps|
    ensures r >= 0 ==> Steps[r].id == s && forall j | k <= j < r :: Steps[j].id != s
    ensures r == -1 <==> forall j | k <= j < |Steps| :: Steps[j].id != s
    decreases |Steps| - k
  {
    if k == |Steps| then -1
    else if Steps[k].id == s then k
    else FindIndexFrom(s, k + 1)
  }

  /** The position of step `s` in the bar, or -1 when it has no entry. */
  function StepIndex(s: MigrationStep): int {
    FindIndexFrom(s, 0)
  }

  /** `getCurrentStepIndex`. */
  function CurrentStepIndex(status: MigrationStatus): int {
    StepIndex(status.step)
  }

  /** `isStepActive`. */
  predicate IsStepActive(status: MigrationStatus, s: MigrationStep) {
    status.step == s
  }

  /** `isStepComplete`: the step's position lies before the current one. */
  predicate IsStepComplete(status: MigrationStatus, s: MigrationStep) {
    StepIndex(s) < CurrentStepIndex(status)
  }

  /** Upload, Extract, Analyze, Convert and Report sit at 0 to 4; the other steps at -1. */
  lemma StepIndices()
    ensures StepIndex(Uploading) == 0 && StepIndex(Extracting) == 1 && StepIndex(Analyzing) == 2
    ensures StepIndex(Converting) == 3 && StepIndex(GeneratingReport) == 4
    ensures StepIndex(Idle) == -1 && StepIndex(Complete) == -1 && StepIndex(Error) == -1
  {
  }

  /** The bar's entries are distinct, so a listed step is found at its own position. */
  lemma {:induction false} StepIndexOfEntry(k: nat)
    requires k < |Steps|
    ensures StepIndex(Steps[k].id) == k
  {
    assert forall i, j | 0 <= i < j < |Steps| :: Steps[i].id != Steps[j].id;
  }

  /** The active step is never also shown as complete. */
  lemma ActiveNotComplete(status: MigrationStatus, s: MigrationStep)
    requires IsStepActive(status, s)
    ensures !IsStepComplete(status, s)
  {
  }

  /** A step counts as complete iff the run is on a listed step and `s` comes before it. */
  lemma CompleteIff(status: MigrationStatus, s: MigrationStep)
    ensures IsStepComplete(status, s) <==>
      (CurrentStepIndex(status) >= 0 && (StepIndex(s) == -1 || StepIndex(s) < CurrentStepIndex(status)))
  {
  }

  /** While the run is idle, finished or failed, no step is shown as complete. */
  lemma NothingCompleteOffList(status: MigrationStatus, s: MigrationStep)
    requires status.step == Idle || status.step == Complete || status.step == Error
    ensures !IsStepComplete(status, s)
  {
    StepIndices();
  }

  /** Completion is downward closed along the bar. */
  lemma CompleteDownward(status: MigrationStatus, i: nat, j: nat)
    requires i <= j < |Steps| && IsStepComplete(status, Steps[j].id)
    ensures IsStepComplete(status, Steps[i].id)
  {
    StepIndexOfEntry(i);
    StepIndexOfEntry(j);
  }

  /**
   * A step with no entry (Idle, Complete, Error) counts as complete whenever the run is on a
   * listed step, since -1 lies below every position.
   */
  lemma OffListStepCountsComplete(status: MigrationStatus, s: MigrationStep)
    requires s == Idle || s == Complete || s == Error
    requires status.step != Idle && status.step != Complete && status.step != Error
    ensures IsStepComplete(status, s)
  {
    StepIndices();
  }
}
