/**
 * The stage-selection screen (src/components/game/StageSelect.tsx): which
 * stage cards are open, which are marked completed, what a click on a card
 * does, when the skip button shows and the affection shown on a card.
 */
module StageSelect {
  import opened Wrappers
  import opened GameTypes
  import opened Characters

  datatype StageCard = StageCard(id: Stage, name: string, emoji: string, description: string)

  /** The cards in display order. */
  const Stages: seq<StageCard> := [
    StageCard(Cryptography, "Cryptography", "🔐", "เรียนรู้การเข้ารหัสกับซิฟเฟอร์"),
    StageCard(Authentication, "Authentication", "🔑", "พิสูจน์ตัวตนกับวีร่า"),
    StageCard(Authorization, "Authorization", "👑", "รับสิทธิ์จากอาเรีย")
  ]

  /** `stages.findIndex(s => s.id === stage)`: the card's position, or -1. */
  function FindIndex(cards: seq<StageCard>, stage: Stage): (i: int)
    ensures -1 <= i < |cards|
    ensures 0 <= i ==> cards[i].id == stage && forall j :: 0 <= j < i ==> cards[j].id != stage
    ensures i == -1 <==> forall j :: 0 <= j < |cards| ==> cards[j].id != stage
    decreases |cards|
  {
    if cards == [] then -1
    else if cards[0].id == stage then 0
    else
      var i := FindIndex(cards[1..], stage);
      if i == -1 then -1 else i + 1
  }

  /**
   * `isStageUnlocked`: authorization is locked outright; otherwise the first
   * card is open and every other card opens once the card before it is
   * completed.
   */
  function IsStageUnlocked(stage: Stage, completedStages: seq<Stage>): (r: bool)
    ensures r <==> stage != Authorization &&
                   (Stages[0].id == stage ||
                    exists i :: 1 <= i < |Stages| && Stages[i].id == stage && Stages[i - 1].id in completedStages)
  {
    if stage == Authorization then false
    else
      var stageIndex := FindIndex(Stages, stage);
      if stageIndex == 0 then true
      else Stages[stageIndex - 1].id in completedStages
  }

  /** `isStageCompleted`. */
  function IsStageCompleted(stage: Stage, completedStages: seq<Stage>): (r: bool)
    ensures r <==> exists i :: 0 <= i < |completedStages| && completedStages[i] == stage
  {
    stage in completedStages
  }

  /**
   * The lock rule per stage: cryptography always open, authentication open
   * exactly when cryptography is completed, authorization never open.
   */
  lemma {:induction false} UnlockRule(completedStages: seq<Stage>)
    ensures IsStageUnlocked(Cryptography, completedStages)
    ensures IsStageUnlocked(Authentication, completedStages) <==> Cryptography in completedStages
    ensures !IsStageUnlocked(Authorization, completedStages)
  {
    assert FindIndex(Stages, Cryptography) == 0;
    assert FindIndex(Stages, Authentication) == 1 by {
      assert Stages[0].id != Authentication && Stages[1].id == Authentication;
    }
  }

  /** A click on a card: `onSelectStage(stage)` is called only when the card is open. */
  function HandleCardClick(stage: Stage, completedStages: seq<Stage>): (selected: Option<Stage>)
    ensures selected.Some? <==> IsStageUnlocked(stage, completedStages)
    ensures selected.Some? ==> selected.value == stage
  {
    if IsStageUnlocked(stage, completedStages) then Some(stage) else None
  }

  /** The development skip button: only with a skip handler, on an open card not yet completed. */
  function SkipButtonVisible(hasSkipHandler: bool, stage: Stage, completedStages: seq<Stage>): (visible: bool)
    ensures visible ==> hasSkipHandler && IsStageUnlocked(stage, completedStages) && stage !in completedStages
    ensures visible ==> stage != Authorization
  {
    UnlockRule(completedStages);
    hasSkipHandler && IsStageUnlocked(stage, completedStages) && !IsStageCompleted(stage, completedStages)
  }

  /** The score shown on a card: the stage character's stored value, 0 when missing. */
  function CardAffection(affection: map<string, int>, stage: Stage): (v: int)
  {
    match CharacterByStage(StageName(stage))
    case Some(c) => if c.id in affection then affection[c.id] else 0
    case None => 0
  }

  /** The width of the affection bar, in percent: the score capped at 100. */
  function BarWidth(v: int): (w: int)
    ensures w <= 100 && w <= v
    ensures w == v || w == 100
  {
    if v < 100 then v else 100
  }

  /** Each card reads the score of its own stage's character. */
  lemma {:induction false} CardAffectionOfStage(affection: map<string, int>, stage: Stage)
    ensures exists c :: c in CharacterTable && c.stage == stage &&
              CardAffection(affection, stage) == (if c.id in affection then affection[c.id] else 0)
  {
    CharacterByStageFinds(stage);
  }
}
