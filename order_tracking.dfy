/**
 * The customer's order-tracking screen (app/order-tracking/page.tsx): two
 * state cells, the current stage (starting at 2) and the minutes left
 * (starting at 12), which a timer advances one stage and five minutes at a
 * time until stage 3; the heading, the badge, the banner and the three-stage
 * timeline are derived from them.
 */
module OrderTracking {
  import opened Seqs
  import opened Text

  /** The stages of the timeline, in order; stage numbers count from 1. */
  const StageNames: seq<string> := ["Order Received", "Preparing", "Ready for Pickup"]

  /** The last stage number. */
  const FinalStatus: int := 3

  datatype TrackerState = TrackerState(currentStatus: int, estimatedTime: int)

  /** The screen opens at stage 2 with 12 minutes left. */
  const Initial: TrackerState := TrackerState(2, 12)

  /** What one timer firing does: below the last stage, one stage on and five minutes off; otherwise nothing. */
  function Step(st: TrackerState): TrackerState {
    if st.currentStatus < FinalStatus then TrackerState(st.currentStatus + 1, st.estimatedTime - 5) else st
  }

  function Steps(st: TrackerState, n: nat): TrackerState
    decreases n
  {
    if n == 0 then st else Steps(Step(st), n - 1)
  }

  /**
   * The step never lowers the stage, moves it by at most one, leaves the last
   * stage (and anything beyond) alone, and takes exactly five minutes off
   * whenever it moves.
   */
  lemma StepSpec(st: TrackerState)
    ensures st.currentStatus <= Step(st).currentStatus <= st.currentStatus + 1
    ensures st.currentStatus >= FinalStatus ==> Step(st) == st
    ensures st.currentStatus < FinalStatus ==>
      Step(st).currentStatus == st.currentStatus + 1 && Step(st).estimatedTime == st.estimatedTime - 5
  {
  }

  /** A stage in [2, 3] stays in [2, 3] and never decreases, however many times the timer fires. */
  lemma {:induction false} StepsStayInRange(st: TrackerState, n: nat)
    requires 2 <= st.currentStatus <= FinalStatus
    ensures 2 <= st.currentStatus <= Steps(st, n).currentStatus <= FinalStatus
    decreases n
  {
    if n > 0 {
      StepsStayInRange(Step(st), n - 1);
    }
  }

  /** Once at the last stage the state is fixed. */
  lemma {:induction false} FinalIsFixedPoint(st: TrackerState, n: nat)
    requires st.currentStatus == FinalStatus
    ensures Steps(st, n) == st
    decreases n
  {
    if n > 0 {
      FinalIsFixedPoint(Step(st), n - 1);
    }
  }

  /** From the initial state the screen is at stage 2 with 12 minutes, and after any firing at stage 3 with 7 minutes. */
  lemma ReachableStates(n: nat)
    ensures Steps(Initial, n) == if n == 0 then Initial else TrackerState(3, 7)
  {
    if n > 0 {
      FinalIsFixedPoint(TrackerState(3, 7), n - 1);
    }
  }

  // ---------------------------------------------------------------------------
  // The heading, the badge and the banner

  /** The heading: the minutes left followed by " min remaining" while any are left, and "Ready!" otherwise. */
  function HeadingText(estimatedTime: int): string {
    if estimatedTime > 0 then IntToString(estimatedTime) + " min remaining" else "Ready!"
  }

  /** The heading says "Ready!" exactly when no minutes are left; otherwise it starts with the minutes. */
  lemma HeadingTextSpec(estimatedTime: int)
    ensures HeadingText(estimatedTime) == "Ready!" <==> estimatedTime <= 0
    ensures estimatedTime > 0 ==> StartsWith(HeadingText(estimatedTime), NatToString(estimatedTime))
  {
    if estimatedTime > 0 {
      var s := IntToString(estimatedTime);
      assert |HeadingText(estimatedTime)| == |s| + 14;
      assert HeadingText(estimatedTime)[..|s|] == s;
    }
  }

  function BadgeText(currentStatus: int): string {
    if currentStatus == FinalStatus then "Ready for Pickup" else "Being Prepared"
  }

  /** The "Your order is ready!" banner. */
  predicate ShowsReadyBanner(currentStatus: int) {
    currentStatus == FinalStatus
  }

  /** The badge reads "Ready for Pickup" exactly when the banner is shown, which is exactly at the last stage. */
  lemma BadgeAgreesWithBanner(currentStatus: int)
    ensures BadgeText(currentStatus) == "Ready for Pickup" <==> ShowsReadyBanner(currentStatus)
    ensures ShowsReadyBanner(currentStatus) <==> currentStatus == FinalStatus
  {
  }

  /**
   * The minutes are not tied to the stage: as soon as the order reads "Ready
   * for Pickup" with its banner, the heading still says 7 minutes remain, and
   * from the initial state the heading never says "Ready!".
   */
  lemma ReadyWhileMinutesRemain(n: nat)
    ensures n >= 1 ==>
      (ShowsReadyBanner(Steps(Initial, n).currentStatus) && HeadingText(Steps(Initial, n).estimatedTime) == "7 min remaining")
    ensures HeadingText(Steps(Initial, n).estimatedTime) != "Ready!"
  {
    ReachableStates(n);
    var st := Steps(Initial, n);
    if n >= 1 {
      assert st == TrackerState(3, 7);
      assert NatToString(7) == "7";
      assert HeadingText(st.estimatedTime) == "7 min remaining";
    } else {
      assert st.estimatedTime == 12;
    }
    HeadingTextSpec(st.estimatedTime);
  }

  // ---------------------------------------------------------------------------
  // The timeline

  /** Stage `index` (counted from 0) is ticked when its stage number, `index + 1`, is at most the current one. */
  predicate IsCompletedStage(currentStatus: int, index: int) {
    index < currentStatus
  }

  /** Stage `index` is marked "In progress..." when its stage number is the current one. */
  predicate IsCurrentStage(currentStatus: int, index: int) {
    index == currentStatus - 1
  }

  /** The "Completed" sub-label: a ticked stage before the current one. */
  predicate ShowsCompletedLabel(currentStatus: int, index: int) {
    IsCompletedStage(currentStatus, index) && index < currentStatus - 1
  }

  /** The current stage is also ticked, and the "Completed" label marks the ticked stages other than the current one. */
  lemma StageFlagsSpec(currentStatus: int, index: int)
    ensures IsCurrentStage(currentStatus, index) ==> IsCompletedStage(currentStatus, index)
    ensures ShowsCompletedLabel(currentStatus, index)
        <==> IsCompletedStage(currentStatus, index) && !IsCurrentStage(currentStatus, index)
  {
  }

  datatype StageView = StageView(name: string, completed: bool, current: bool, completedLabel: bool)

  /**
   * The rendered timeline, one view per stage in stage order. The ticked
   * stages form a prefix; at most one stage is in progress, and it is the last
   * ticked one; "Completed" marks the other ticked stages. Stage number
   * `currentStatus` is the one in progress, and for a stage number of at
   * least 1 the first stage is ticked.
   */
  function Timeline(currentStatus: int): (t: seq<StageView>)
    ensures |t| == |StageNames|
    ensures forall i :: 0 <= i < |t| ==> t[i].name == StageNames[i]
    ensures forall i, j :: 0 <= i < j < |t| && t[j].completed ==> t[i].completed
    ensures forall i, j :: 0 <= i < j < |t| ==> !(t[i].current && t[j].current)
    ensures forall i, j :: 0 <= i < j < |t| && t[i].current ==> !t[j].completed
    ensures forall i :: 0 <= i < |t| ==> (t[i].current ==> t[i].completed)
    ensures forall i :: 0 <= i < |t| ==> (t[i].completedLabel <==> t[i].completed && !t[i].current)
    ensures 1 <= currentStatus <= |t| ==> t[currentStatus - 1].current
    ensures currentStatus >= 1 ==> t[0].completed
    ensures currentStatus <= 0 ==> forall i :: 0 <= i < |t| ==> !t[i].completed
  {
    seq(|StageNames|, i requires 0 <= i < |StageNames| =>
      StageView(StageNames[i], IsCompletedStage(currentStatus, i), IsCurrentStage(currentStatus, i),
        ShowsCompletedLabel(currentStatus, i)))
  }

  predicate IsTicked(v: StageView) {
    v.completed
  }

  function Max(a: int, b: int): int {
    if a >= b then a else b
  }

  function Min(a: int, b: int): int {
    if a <= b then a else b
  }

  /** Among the first `n` stages, `max(0, min(currentStatus, n))` are ticked. */
  lemma {:induction false} TickedPrefixCount(currentStatus: int, n: nat)
    requires n <= |StageNames|
    ensures |Filter(Timeline(currentStatus)[..n], IsTicked)| == Max(0, Min(currentStatus, n))
  {
    if n > 0 {
      var t := Timeline(currentStatus);
      TickedPrefixCount(currentStatus, n - 1);
      assert t[..n] == t[..n - 1] + [t[n - 1]];
      FilterConcat(t[..n - 1], [t[n - 1]], IsTicked);
    }
  }

  /** Exactly `min(currentStatus, 3)` stages are ticked for a stage number that is not negative; at most one stage is current. */
  lemma TickedStageCount(currentStatus: int)
    requires currentStatus >= 0
    ensures |Filter(Timeline(currentStatus), IsTicked)| == Min(currentStatus, |StageNames|)
    ensures forall i, j :: 0 <= i < j < |StageNames| ==> !(Timeline(currentStatus)[i].current && Timeline(currentStatus)[j].current)
  {
    TickedPrefixCount(currentStatus, |StageNames|);
    assert Timeline(currentStatus)[..|StageNames|] == Timeline(currentStatus);
  }

  // ---------------------------------------------------------------------------
  // The state cells

  class OrderTracker {
    var currentStatus: int
    var estimatedTime: int

    function State(): TrackerState
      reads this
    {
      TrackerState(currentStatus, estimatedTime)
    }

    ghost predicate Valid()
      reads this
    {
      2 <= currentStatus <= FinalStatus
    }

    constructor ()
      ensures Valid() && State() == Initial
    {
      currentStatus := 2;
      estimatedTime := 12;
    }

    /** The body of the timeout: advance one stage and take five minutes off, unless at the last stage. */
    method Advance()
      requires Valid()
      modifies this
      ensures Valid()
      ensures State() == Step(old(State()))
      ensures old(currentStatus) <= currentStatus
    {
      if currentStatus < FinalStatus {
        currentStatus := currentStatus + 1;
        estimatedTime := estimatedTime - 5;
      }
    }
  }
}
