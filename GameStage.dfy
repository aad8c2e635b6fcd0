/**
 * One stage being played (src/components/game/GameStage.tsx): a cursor over
 * the stage's dialog lines, the affection earned so far (never below 0),
 * the response currently shown, the heroine's expression and whether the
 * last challenge was failed.
 */
module GameStage {
  import opened Wrappers
  import opened GameTypes
  import opened Characters
  import DialogBox

  datatype Emotion = Neutral | Happy | Sad

  /**
   * The lines of the requested level, falling back to level 0 when the
   * level is absent (the game screen passes no level at all). The dialog
   * content has at least one level.
   */
  function LevelLines(levels: seq<seq<DialogLine>>, stageLevel: Option<int>): (lines: seq<DialogLine>)
    requires |levels| > 0
    ensures stageLevel.Some? && 0 <= stageLevel.value < |levels| ==> lines == levels[stageLevel.value]
    ensures !(stageLevel.Some? && 0 <= stageLevel.value < |levels|) ==> lines == levels[0]
  {
    if stageLevel.Some? && 0 <= stageLevel.value < |levels| then levels[stageLevel.value] else levels[0]
  }

  /** `Math.max(0, affection + delta)`. */
  function ApplyDelta(affection: int, delta: int): (r: int)
    ensures r >= 0 && r >= affection + delta
    ensures affection + delta >= 0 ==> r == affection + delta
    ensures affection + delta < 0 ==> r == 0
  {
    if affection + delta < 0 then 0 else affection + delta
  }

  /** The score after a run of deltas, each applied with the floor at 0. */
  function ApplyAll(affection: int, deltas: seq<int>): (r: int)
    decreases |deltas|
  {
    if deltas == [] then affection else ApplyAll(ApplyDelta(affection, deltas[0]), deltas[1..])
  }

  /** The plain sum of the deltas, without any floor. */
  function Sum(deltas: seq<int>): int
    decreases |deltas|
  {
    if deltas == [] then 0 else deltas[0] + Sum(deltas[1..])
  }

  /**
   * The floor at 0 only ever raises the score: after any run of choices
   * and challenge results the score is at least the plain sum of the
   * deltas, and it is not negative once at least one delta was applied.
   */
  lemma {:induction false} ApplyAllBounds(affection: int, deltas: seq<int>)
    ensures ApplyAll(affection, deltas) >= affection + Sum(deltas)
    ensures affection >= 0 || |deltas| > 0 ==> ApplyAll(affection, deltas) >= 0
    decreases |deltas|
  {
    if deltas != [] {
      ApplyAllBounds(ApplyDelta(affection, deltas[0]), deltas[1..]);
    }
  }

  /** With only gains, the floor never applies and the score is the plain sum. */
  lemma {:induction false} ApplyAllGains(affection: int, deltas: seq<int>)
    requires affection >= 0
    requires forall i :: 0 <= i < |deltas| ==> deltas[i] >= 0
    ensures ApplyAll(affection, deltas) == affection + Sum(deltas)
    decreases |deltas|
  {
    if deltas != [] {
      ApplyAllGains(affection + deltas[0], deltas[1..]);
    }
  }

  /** The delta and the response a challenge result brings. */
  function ChallengeOutcome(correct: bool, challenge: Challenge): (outcome: (int, string))
    ensures correct ==> outcome == (challenge.affectionChange, challenge.response)
    ensures !correct ==> outcome == (challenge.incorrectAffectionChange, challenge.incorrectResponse)
  {
    if correct then (challenge.affectionChange, challenge.response)
    else (challenge.incorrectAffectionChange, challenge.incorrectResponse)
  }

  class Cursor {
    const lines: seq<DialogLine>
    var currentDialogIndex: int
    var affection: int
    var showResponse: Option<string>
    var emotion: Emotion
    var challengeFailed: bool

    /** The index stays on a line of the stage (it stays 0 on a stage without lines). */
    ghost predicate Valid()
      reads this
    {
      && 0 <= currentDialogIndex
      && (|lines| > 0 ==> currentDialogIndex < |lines|)
      && (|lines| == 0 ==> currentDialogIndex == 0)
    }

    /** The line on screen; the stage renders nothing without one. */
    function CurrentLine(): (line: Option<DialogLine>)
      reads this
      requires Valid()
      ensures line.Some? <==> |lines| > 0
      ensures line.Some? ==> line.value == lines[currentDialogIndex]
    {
      if currentDialogIndex < |lines| then Some(lines[currentDialogIndex]) else None
    }

    /** Entering a stage: the state is reset to the stage's start. */
    constructor (levels: seq<seq<DialogLine>>, stageLevel: Option<int>, initialAffection: int)
      requires |levels| > 0
      ensures Valid()
      ensures lines == LevelLines(levels, stageLevel)
      ensures currentDialogIndex == 0 && affection == initialAffection
      ensures showResponse == None && emotion == Neutral && !challengeFailed
    {
      lines := LevelLines(levels, stageLevel);
      currentDialogIndex := 0;
      affection := initialAffection;
      showResponse := None;
      emotion := Neutral;
      challengeFailed := false;
    }

    /**
     * `handleNext`. A shown response is dismissed first; when it followed a
     * failed challenge the cursor stays put so the challenge can be retried.
     * Otherwise the cursor moves to the next line, or from the last line the
     * stage completes with the current affection.
     */
    method Next() returns (completed: Option<int>)
      requires Valid()
      modifies this
      ensures Valid()
      ensures affection == old(affection)
      ensures DialogBox.Truthy(old(showResponse)) ==> showResponse == None && emotion == Neutral
      ensures !DialogBox.Truthy(old(showResponse)) ==> showResponse == old(showResponse) && emotion == old(emotion)
      ensures DialogBox.Truthy(old(showResponse)) && old(challengeFailed) ==>
                !challengeFailed && currentDialogIndex == old(currentDialogIndex) && completed == None
      ensures !(DialogBox.Truthy(old(showResponse)) && old(challengeFailed)) ==>
                challengeFailed == old(challengeFailed) &&
                (old(currentDialogIndex) < |lines| - 1 ==>
                   currentDialogIndex == old(currentDialogIndex) + 1 && completed == None) &&
                (old(currentDialogIndex) >= |lines| - 1 ==>
                   currentDialogIndex == old(currentDialogIndex) && completed == Some(affection))
    {
      completed := None;
      if DialogBox.Truthy(showResponse) {
        showResponse := None;
        emotion := Neutral;
        if challengeFailed {
          challengeFailed := false;
          return;
        }
      }
      if currentDialogIndex < |lines| - 1 {
        currentDialogIndex := currentDialogIndex + 1;
      } else {
        completed := Some(affection);
      }
    }

    /** `handleChoice`: the delta is applied with the floor at 0 and the choice's response shows. */
    method HandleChoice(choice: Choice)
      requires Valid()
      modifies this
      ensures Valid()
      ensures affection == ApplyDelta(old(affection), choice.affectionChange) && affection >= 0
      ensures showResponse == Some(choice.response)
      ensures emotion == (if choice.correct then Happy else Sad)
      ensures currentDialogIndex == old(currentDialogIndex) && challengeFailed == old(challengeFailed)
    {
      affection := ApplyDelta(affection, choice.affectionChange);
      showResponse := Some(choice.response);
      emotion := if choice.correct then Happy else Sad;
    }

    /**
     * `handleChallengeComplete`: the success or the failure delta and
     * response; a wrong answer raises the failure flag, a right one leaves
     * it as it was.
     */
    method HandleChallengeComplete(correct: bool, challenge: Challenge)
      requires Valid()
      modifies this
      ensures Valid()
      ensures affection == ApplyDelta(old(affection), ChallengeOutcome(correct, challenge).0) && affection >= 0
      ensures showResponse == Some(ChallengeOutcome(correct, challenge).1)
      ensures emotion == (if correct then Happy else Sad)
      ensures challengeFailed == (old(challengeFailed) || !correct)
      ensures currentDialogIndex == old(currentDialogIndex)
    {
      var outcome := ChallengeOutcome(correct, challenge);
      affection := ApplyDelta(affection, outcome.0);
      showResponse := Some(outcome.1);
      emotion := if correct then Happy else Sad;
      if !correct {
        challengeFailed := true;
      }
    }
  }

  /**
   * A failed challenge holds the cursor: the failure response shows, the
   * next click only dismisses it and the cursor stays on the challenge.
   */
  method FailedChallengeHolds(line0: DialogLine, line1: DialogLine, challenge: Challenge)
    returns (heldAt: int, completed: Option<int>, failed: bool)
    requires challenge.incorrectResponse != ""
    ensures heldAt == 0 && completed == None && !failed
  {
    var c := new Cursor([[line0, line1]], None, 0);
    c.HandleChallengeComplete(false, challenge);
    completed := c.Next();
    heldAt, failed := c.currentDialogIndex, c.challengeFailed;
  }

  /**
   * A failure whose response is empty shows nothing to dismiss: the next
   * click moves past the challenge and the failure flag stays raised.
   */
  method EmptyFailureResponseAdvances(line0: DialogLine, line1: DialogLine, challenge: Challenge)
    returns (index: int, failed: bool)
    requires challenge.incorrectResponse == ""
    ensures index == 1 && failed
  {
    var c := new Cursor([[line0, line1]], None, 0);
    c.HandleChallengeComplete(false, challenge);
    var _ := c.Next();
    index, failed := c.currentDialogIndex, c.challengeFailed;
  }

  /**
   * Dismissing a response after a choice also moves on: on the last line
   * the same click completes the stage with the affection earned.
   */
  method ChoiceThenComplete(line: DialogLine, choice: Choice) returns (completed: Option<int>)
    requires choice.response != "" && choice.affectionChange >= 0
    ensures completed == Some(choice.affectionChange)
  {
    var c := new Cursor([[line]], None, 0);
    c.HandleChoice(choice);
    completed := c.Next();
  }
}
