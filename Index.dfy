/**
 * The progression controller (src/pages/Index.tsx): the screen shown, the
 * stage being played, the stages completed so far and the affection stored
 * per character id.
 */
module Index {
  import opened Wrappers
  import opened GameTypes
  import opened Characters
  import StageSelect
  import VictoryScreen

  datatype Screen = Title | Select | Playing | Victory

  /** The three character ids the affection record is keyed by. */
  const CharacterIds: set<string> := {"cipher", "vera", "aria"}

  /** The record every game starts from and every restart returns to. */
  const InitialAffection: map<string, int> := map["cipher" := 0, "vera" := 0, "aria" := 0]

  /** The character id each stage's result is stored under. */
  function CharacterIdOf(stage: Stage): (id: string)
    ensures id in CharacterIds
  {
    match stage
    case Cryptography => "cipher"
    case Authentication => "vera"
    case Authorization => "aria"
  }

  /** The controller's ids agree with the character table: each is the id of the stage's own character. */
  lemma {:induction false} CharacterIdOfAgrees(stage: Stage)
    ensures CharacterByStage(StageName(stage)).Some?
    ensures CharacterByStage(StageName(stage)).value.id == CharacterIdOf(stage)
  {
    CharacterByStageFinds(stage);
    var c := CharacterByStage(StageName(stage)).value;
    assert c == CharacterTable[0] || c == CharacterTable[1] || c == CharacterTable[2];
  }

  /** Distinct stages map to distinct ids, so a completion touches one record entry only. */
  lemma {:induction false} CharacterIdOfInjective(s: Stage, t: Stage)
    ensures CharacterIdOf(s) == CharacterIdOf(t) <==> s == t
  {
  }

  predicate Distinct(s: seq<Stage>)
  {
    forall i, j :: 0 <= i < j < |s| ==> s[i] != s[j]
  }

  /** Marking a stage completed: appended once, never twice. */
  function AddCompleted(completed: seq<Stage>, stage: Stage): (r: seq<Stage>)
    ensures stage in completed ==> r == completed
    ensures stage !in completed ==> r == completed + [stage]
    ensures Distinct(completed) ==> Distinct(r)
    ensures forall x :: x in r <==> x in completed || x == stage
  {
    if stage in completed then completed else completed + [stage]
  }

  function Present(s: seq<Stage>, stage: Stage): int
  {
    if stage in s then 1 else 0
  }

  /** A list without repeats has one entry per stage it mentions. */
  lemma {:induction false} DistinctLength(s: seq<Stage>)
    requires Distinct(s)
    ensures |s| == Present(s, Cryptography) + Present(s, Authentication) + Present(s, Authorization)
    decreases |s|
  {
    if s != [] {
      var rest := s[1..];
      assert Distinct(rest) by {
        forall i, j | 0 <= i < j < |rest| ensures rest[i] != rest[j] {
          assert rest[i] == s[i + 1] && rest[j] == s[j + 1];
        }
      }
      assert s[0] !in rest by {
        forall k | 0 <= k < |rest| ensures rest[k] != s[0] {
          assert rest[k] == s[k + 1];
        }
      }
      assert forall x :: x in s <==> x in rest || x == s[0];
      DistinctLength(rest);
      assert Present(s, s[0]) == Present(rest, s[0]) + 1;
    }
  }

  /**
   * A completed list without repeats has at most three entries, has three
   * exactly when every stage is in it, and without authorization (locked on
   * the selection screen) it stops at two.
   */
  lemma {:induction false} CompletedBounds(s: seq<Stage>)
    requires Distinct(s)
    ensures |s| <= 3
    ensures |s| == 3 <==> forall stage :: stage in s
    ensures Authorization !in s ==> |s| <= 2
  {
    DistinctLength(s);
    if forall stage :: stage in s {
      assert Present(s, Cryptography) == 1 && Present(s, Authentication) == 1 && Present(s, Authorization) == 1;
    }
    if |s| == 3 {
      assert Present(s, Cryptography) == 1 && Present(s, Authentication) == 1 && Present(s, Authorization) == 1;
      forall stage | true ensures stage in s {
        match stage
        case Cryptography =>
        case Authentication =>
        case Authorization =>
      }
    }
  }

  class Game {
    var screen: Screen
    var currentStage: Stage
    var completedStages: seq<Stage>
    var affection: map<string, int>

    /** The record is keyed by exactly the three ids and no stage is listed twice. */
    ghost predicate Valid()
      reads this
    {
      affection.Keys == CharacterIds && Distinct(completedStages)
    }

    /** No stored score is negative. */
    ghost predicate NonNegative()
      reads this
    {
      forall id :: id in affection ==> affection[id] >= 0
    }

    constructor ()
      ensures Valid() && NonNegative()
      ensures screen == Title && currentStage == Cryptography && completedStages == []
      ensures affection == InitialAffection
    {
      screen := Title;
      currentStage := Cryptography;
      completedStages := [];
      affection := InitialAffection;
    }

    /** `getInitialAffection`: the stored score of the stage's character, 0 when missing. */
    function GetInitialAffection(stage: Stage): (v: int)
      reads this
      ensures CharacterIdOf(stage) in affection ==> v == affection[CharacterIdOf(stage)]
      ensures CharacterIdOf(stage) !in affection ==> v == 0
    {
      var id := CharacterIdOf(stage);
      if id in affection then affection[id] else 0
    }

    /** `handleStart`. */
    method HandleStart()
      modifies this
      ensures screen == Select
      ensures currentStage == old(currentStage) && completedStages == old(completedStages)
      ensures affection == old(affection)
    {
      screen := Select;
    }

    /** `handleSelectStage`: the stage becomes current and is played. */
    method HandleSelectStage(stage: Stage)
      modifies this
      ensures screen == Playing && currentStage == stage
      ensures completedStages == old(completedStages) && affection == old(affection)
    {
      currentStage := stage;
      screen := Playing;
    }

    /**
     * A click on a card of the selection screen: only an open card starts
     * its stage, so authorization is never started from there.
     */
    method ClickStageCard(stage: Stage)
      modifies this
      ensures StageSelect.IsStageUnlocked(stage, old(completedStages)) ==> screen == Playing && currentStage == stage
      ensures !StageSelect.IsStageUnlocked(stage, old(completedStages)) ==>
                screen == old(screen) && currentStage == old(currentStage)
      ensures currentStage == Authorization ==> old(currentStage) == Authorization
      ensures completedStages == old(completedStages) && affection == old(affection)
    {
      StageSelect.UnlockRule(completedStages);
      var selected := StageSelect.HandleCardClick(stage, completedStages);
      if selected.Some? {
        HandleSelectStage(selected.value);
      }
    }

    /**
     * The answer of the start-up probe, given as the `stage` field it
     * carried (None when the request failed or the field is missing): the
     * name "authorization" jumps straight into that stage.
     */
    method ProbeAnswered(probedStage: Option<string>)
      modifies this
      ensures probedStage == Some("authorization") ==> screen == Playing && currentStage == Authorization
      ensures probedStage != Some("authorization") ==> screen == old(screen) && currentStage == old(currentStage)
      ensures completedStages == old(completedStages) && affection == old(affection)
    {
      if probedStage == Some("authorization") {
        currentStage := Authorization;
        screen := Playing;
      }
    }

    /**
     * `handleStageComplete`: the current stage's character gets the final
     * score; a stage completed for the first time is added to the list and
     * the game ends in victory when that makes three; otherwise it is back
     * to the selection screen.
     */
    method HandleStageComplete(finalAffection: int)
      requires Valid()
      modifies this
      ensures Valid()
      ensures affection == old(affection)[CharacterIdOf(currentStage) := finalAffection]
      ensures forall id :: id in affection && id != CharacterIdOf(currentStage) ==> affection[id] == old(affection)[id]
      ensures GetInitialAffection(currentStage) == finalAffection
      ensures completedStages == AddCompleted(old(completedStages), currentStage)
      ensures screen == Victory <==> currentStage !in old(completedStages) && |completedStages| == 3
      ensures screen != Victory ==> screen == Select
      ensures currentStage == old(currentStage)
      ensures old(NonNegative()) && finalAffection >= 0 ==> NonNegative()
    {
      var charId := CharacterIdOf(currentStage);
      affection := affection[charId := finalAffection];
      if currentStage !in completedStages {
        var newCompleted := completedStages + [currentStage];
        completedStages := newCompleted;
        if |newCompleted| == 3 {
          screen := Victory;
        } else {
          screen := Select;
        }
      } else {
        screen := Select;
      }
    }

    /** `handleBack`: back to the selection screen, nothing else changes. */
    method HandleBack()
      modifies this
      ensures screen == Select
      ensures currentStage == old(currentStage) && completedStages == old(completedStages)
      ensures affection == old(affection)
    {
      screen := Select;
    }

    /** `handleRestart`: everything returns to the state of a new game. */
    method HandleRestart()
      modifies this
      ensures Valid() && NonNegative()
      ensures screen == Title && currentStage == Cryptography && completedStages == []
      ensures affection == InitialAffection
    {
      completedStages := [];
      affection := InitialAffection;
      currentStage := Cryptography;
      screen := Title;
    }
  }

  /**
   * Victory needs authorization among the completed stages, and the
   * selection screen never opens it: only the start-up probe leads there.
   */
  lemma {:induction false} VictoryNeedsAuthorization(completed: seq<Stage>)
    requires Distinct(completed) && |completed| == 3
    ensures Authorization in completed
    ensures !StageSelect.IsStageUnlocked(Authorization, completed)
  {
    CompletedBounds(completed);
    StageSelect.UnlockRule(completed);
  }

  /** On the victory screen the total is the sum of the three stored scores. */
  lemma {:induction false} VictoryTotal(affection: map<string, int>)
    requires affection.Keys == CharacterIds
    ensures VictoryScreen.Total(affection) == affection["cipher"] + affection["vera"] + affection["aria"]
  {
    VictoryScreen.TotalOfThree(affection);
  }

  /** A new game after cryptography was completed with the score a. */
  method FirstStage(a: int) returns (g: Game)
    ensures fresh(g) && g.Valid()
    ensures g.screen == Select && g.completedStages == [Cryptography]
    ensures g.affection["cipher"] == a && g.affection["vera"] == 0 && g.affection["aria"] == 0
  {
    g := new Game();
    g.HandleStart();
    g.HandleSelectStage(Cryptography);
    g.HandleStageComplete(a);
  }

  /** A new game after cryptography and authentication were completed with the scores a and b. */
  method FirstTwoStages(a: int, b: int) returns (g: Game)
    ensures fresh(g) && g.Valid()
    ensures g.screen == Select && g.completedStages == [Cryptography, Authentication]
    ensures g.affection["cipher"] == a && g.affection["vera"] == b && g.affection["aria"] == 0
  {
    g := FirstStage(a);
    g.HandleSelectStage(Authentication);
    g.HandleStageComplete(b);
  }

  /**
   * Playing the three stages in turn, the last one reached through the
   * start-up probe, and completing each with a score ends in victory with
   * those scores recorded.
   */
  method PlayThrough(a: int, b: int, c: int) returns (screen: Screen, affection: map<string, int>)
    ensures screen == Victory
    ensures affection.Keys == CharacterIds
    ensures affection["cipher"] == a && affection["vera"] == b && affection["aria"] == c
  {
    var g := FirstTwoStages(a, b);
    g.ProbeAnswered(Some("authorization"));
    g.HandleStageComplete(c);
    screen, affection := g.screen, g.affection;
  }

  /** Completing a stage a second time only updates its score and returns to selection. */
  method RepeatCompletion(first: int, second: int) returns (screen: Screen, completed: seq<Stage>, score: int)
    ensures screen == Select && completed == [Cryptography] && score == second
  {
    var g := new Game();
    g.HandleSelectStage(Cryptography);
    g.HandleStageComplete(first);
    g.HandleSelectStage(Cryptography);
    g.HandleStageComplete(second);
    screen, completed, score := g.screen, g.completedStages, g.GetInitialAffection(Cryptography);
  }
}
