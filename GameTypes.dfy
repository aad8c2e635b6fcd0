/**
 * The game's shared vocabulary (src/types/game.ts): stages, challenge kinds,
 * dialog lines with their optional choices and challenge, and the
 * progression record.
 */
module GameTypes {
  import opened Wrappers

  /** The three stages; a closed set. */
  datatype Stage = Cryptography | Authentication | Authorization

  /** The challenge tags a dialog line can carry. The Scytale puzzle has none. */
  datatype ChallengeType = CaesarCipherTag | FillInTheBlankTag | MultiSelectTag

  const AllStages: seq<Stage> := [Cryptography, Authentication, Authorization]

  /** The string the source uses for a stage. */
  function StageName(s: Stage): string
  {
    match s
    case Cryptography => "cryptography"
    case Authentication => "authentication"
    case Authorization => "authorization"
  }

  /** The wire name of a challenge tag. */
  function ChallengeTypeName(t: ChallengeType): string
  {
    match t
    case CaesarCipherTag => "caesar_cipher"
    case FillInTheBlankTag => "fill_in_the_blank"
    case MultiSelectTag => "multi_select"
  }

  /** One option of a multi-select challenge. */
  datatype ChallengeOption = ChallengeOption(id: string, text: string)

  datatype Choice = Choice(
    id: string,
    text: string,
    correct: bool,
    response: string,
    affectionChange: int)

  datatype Challenge = Challenge(
    kind: ChallengeType,
    encryptedText: Option<string>,
    correctAnswer: string,
    response: string,
    affectionChange: int,
    incorrectResponse: string,
    incorrectAffectionChange: int,
    hint: Option<string>,
    options: Option<seq<ChallengeOption>>)

  /**
   * A dialog line. The optional boolean flags `isChoice` and `isChallenge`
   * are read only for their truth value, so an absent flag is `false` here.
   */
  datatype DialogLine = DialogLine(
    character: Option<string>,
    text: string,
    isChoice: bool,
    choices: Option<seq<Choice>>,
    isChallenge: bool,
    challenge: Option<Challenge>)

  datatype GameState = GameState(
    currentStage: Stage,
    stagesCompleted: seq<Stage>,
    affection: map<string, int>,
    currentDialog: int)

  /** Every stage is listed exactly once in `AllStages`. */
  lemma StagesAreClosed(s: Stage)
    ensures s in AllStages
    ensures |AllStages| == 3
    ensures forall i, j :: 0 <= i < j < |AllStages| ==> AllStages[i] != AllStages[j]
  {
  }

  /** The stage names are pairwise distinct, so a name identifies its stage. */
  lemma {:induction false} StageNameInjective(s: Stage, t: Stage)
    ensures StageName(s) == StageName(t) <==> s == t
  {
    if s != t {
      assert StageName(s)[0] != StageName(t)[0] || StageName(s)[5] != StageName(t)[5];
    }
  }
}
