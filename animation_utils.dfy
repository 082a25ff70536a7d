// `createStaggeredAnimationDelays` of src/utils/animationUtils.ts: one delay class name per
// item, growing by `baseDelay` milliseconds and capped at `delay-500`.

module AnimationUtils {
  import opened Text

  /** The milliseconds item `i` waits: `i * baseDelay`, or 500 once that exceeds 500. */
  function DelayMs(i: nat, baseDelay: int): int {
    if i * baseDelay <= 500 then i * baseDelay else 500
  }

  /**
   * `createStaggeredAnimationDelays(totalItems, baseDelay)`; the source's default is 100.
   * `Array.from` takes a negative length as 0.
   */
  function StaggeredDelays(totalItems: int, baseDelay: int): (r: seq<string>)
    ensures |r| == if totalItems < 0 then 0 else totalItems
    ensures forall i | 0 <= i < |r| :: r[i] == "delay-" + IntToString(DelayMs(i, baseDelay))
  {
    seq(if totalItems < 0 then 0 else totalItems, i requires 0 <= i =>
      var delay := i * baseDelay;
      if delay <= 500 then "delay-" + IntToString(delay) else "delay-500")
  }

  /** The default spacing of the source. */
  const DefaultBaseDelay := 100

  lemma MulMonotone(i: nat, j: nat, b: int)
    requires i <= j && b >= 0
    ensures i * b <= j * b
  {
    assert j * b == i * b + (j - i) * b;
  }

  /**
   * With a non-negative spacing every entry names a delay between 0 and 500 that reads back
   * from its digits, and the delays never decrease along the list.
   */
  lemma DelaysBoundedAndSorted(totalItems: nat, baseDelay: int)
    requires baseDelay >= 0
    ensures var r := StaggeredDelays(totalItems, baseDelay);
      forall i | 0 <= i < totalItems ::
        0 <= DelayMs(i, baseDelay) <= 500
        && r[i] == "delay-" + NatToString(DelayMs(i, baseDelay))
        && DecimalValue(r[i][6..]) == DelayMs(i, baseDelay)
    ensures forall i, j | 0 <= i <= j < totalItems :: DelayMs(i, baseDelay) <= DelayMs(j, baseDelay)
  {
    var r := StaggeredDelays(totalItems, baseDelay);
    forall i | 0 <= i < totalItems
      ensures 0 <= DelayMs(i, baseDelay) <= 500
      ensures r[i] == "delay-" + NatToString(DelayMs(i, baseDelay))
      ensures DecimalValue(r[i][6..]) == DelayMs(i, baseDelay)
    {
      MulMonotone(0, i, baseDelay);
      NatToStringRoundTrip(DelayMs(i, baseDelay));
      assert r[i][6..] == NatToString(DelayMs(i, baseDelay));
    }
    forall i, j | 0 <= i <= j < totalItems
      ensures DelayMs(i, baseDelay) <= DelayMs(j, baseDelay)
    {
      MulMonotone(i, j, baseDelay);
    }
  }

  /** A negative spacing is not clamped: later entries name negative delays. */
  lemma NegativeSpacing(totalItems: nat, baseDelay: int, i: nat)
    requires baseDelay < 0 && 0 < i < totalItems
    ensures StaggeredDelays(totalItems, baseDelay)[i] == "delay--" + NatToString(-(i * baseDelay))
  {
    assert i * baseDelay < 0 by {
      assert i * baseDelay == i * (baseDelay + 1) + i * -1;
      MulMonotone(0, i, -baseDelay - 1);
    }
  }

  /** With the default spacing the entries run delay-0, delay-100, …, delay-500, then stay there. */
  lemma DefaultDelays(totalItems: nat, i: nat)
    requires i < totalItems
    ensures var r := StaggeredDelays(totalItems, DefaultBaseDelay);
      (i <= 5 ==> r[i] == "delay-" + NatToString(100 * i)) && (i > 5 ==> r[i] == "delay-500")
  {
    if i > 5 {
      assert NatToString(500) == "500";
    }
  }

  /** Seven items at the default spacing. */
  lemma SevenDefaultDelays()
    ensures StaggeredDelays(7, DefaultBaseDelay)
      == ["delay-0", "delay-100", "delay-200", "delay-300", "delay-400", "delay-500", "delay-500"]
  {
    var r := StaggeredDelays(7, DefaultBaseDelay);
    HundredsRendered();
    DefaultDelays(7, 0);
    DefaultDelays(7, 1);
    DefaultDelays(7, 2);
    DefaultDelays(7, 3);
    DefaultDelays(7, 4);
    DefaultDelays(7, 5);
    DefaultDelays(7, 6);
    assert 100 * 1 == 100 && 100 * 2 == 200 && 100 * 3 == 300 && 100 * 4 == 400 && 100 * 5 == 500;
    assert r[0] == "delay-0" && r[1] == "delay-100" && r[2] == "delay-200";
    assert r[3] == "delay-300" && r[4] == "delay-400" && r[5] == "delay-500" && r[6] == "delay-500";
  }

  lemma HundredsRendered()
    ensures NatToString(0) == "0" && NatToString(100) == "100" && NatToString(200) == "200"
    ensures NatToString(300) == "300" && NatToString(400) == "400" && NatToString(500) == "500"
  {
  }
}
