/**
 * The Scytale puzzle (src/components/game/ScytaleCipher.tsx): five cylinders,
 * one of which carries the answer word on a diagonal of its letter grid. The
 * player selects a cylinder, presses once to arm the confirmation and again
 * to commit; a wrong commitment moves the answer to another cylinder.
 */
module ScytaleCipher {
  import opened Wrappers

  const CylinderCount := 5
  const Rows := 10
  const Cols := 10
  const TargetWord := "TRIMESTER"
  const WrongPickMessage := "นี่มันไม่น่าใช่แท่งรหัสนี้นะ! ลองใหม่อีกรอบสิ!"

  /** The column of row `r` that holds the answer letter on the target cylinder. */
  function AnswerColumn(r: int): int
  {
    (r + 1) % Cols
  }

  /** Whether cell (r, c) of a cylinder's texture holds a letter of the answer word. */
  predicate IsAnswerCell(isCorrect: bool, word: string, r: int, c: int)
  {
    isCorrect && c == AnswerColumn(r) && r < |word|
  }

  /**
   * The letter drawn in each cell: the word's letter on answer cells, a
   * random filler letter (supplied by `fill`) everywhere else.
   */
  function Texture(isCorrect: bool, word: string, fill: (int, int) -> char): (grid: seq<seq<char>>)
    ensures |grid| == Rows
    ensures forall r :: 0 <= r < Rows ==> |grid[r]| == Cols
    ensures forall r, c :: 0 <= r < Rows && 0 <= c < Cols ==>
              grid[r][c] == if IsAnswerCell(isCorrect, word, r, c) then word[r] else fill(r, c)
  {
    seq(Rows, r requires 0 <= r < Rows =>
      seq(Cols, c requires 0 <= c < Cols =>
        if IsAnswerCell(isCorrect, word, r, c) then word[r] else fill(r, c)))
  }

  /** The letters on the shifted diagonal: row r, column (r + 1) mod 10. */
  function Diagonal(grid: seq<seq<char>>, n: int): (d: seq<char>)
    requires 0 <= n <= |grid|
    requires forall r :: 0 <= r < |grid| ==> |grid[r]| == Cols
  {
    seq(n, r requires 0 <= r < n => grid[r][AnswerColumn(r)])
  }

  /**
   * On the target cylinder a word of at most ten letters can be read in full
   * down the shifted diagonal, its letters in distinct columns.
   */
  lemma {:induction false} TargetSpellsWord(word: string, fill: (int, int) -> char)
    requires |word| <= Rows
    ensures Diagonal(Texture(true, word, fill), |word|) == word
    ensures forall r1, r2 :: 0 <= r1 < r2 < |word| ==> AnswerColumn(r1) != AnswerColumn(r2)
  {
    var grid := Texture(true, word, fill);
    var d := Diagonal(grid, |word|);
    forall r | 0 <= r < |word| ensures d[r] == word[r] {
      assert IsAnswerCell(true, word, r, AnswerColumn(r));
    }
  }

  /** A cylinder that is not the target shows only filler letters. */
  lemma DecoyShowsOnlyFiller(word: string, fill: (int, int) -> char, r: int, c: int)
    requires 0 <= r < Rows && 0 <= c < Cols
    ensures Texture(false, word, fill)[r][c] == fill(r, c)
  {
  }

  /** The state of the puzzle component. */
  class Scytale {
    var selectedCylinder: Option<int>
    var isSubmitted: bool
    var confirming: bool
    var targetIndex: int
    var feedback: Option<string>
    var isShuffling: bool

    ghost predicate Valid()
      reads this
    {
      && 0 <= targetIndex < CylinderCount
      && (selectedCylinder.Some? ==> 0 <= selectedCylinder.value < CylinderCount)
      && (confirming ==> selectedCylinder.Some?)
      && (isShuffling ==> selectedCylinder.None? && !confirming && !isSubmitted)
      && (isSubmitted ==> selectedCylinder == Some(targetIndex))
    }

    /** Mounting: nothing selected, and the answer on the randomly drawn cylinder `initialTarget`. */
    constructor (initialTarget: int)
      requires 0 <= initialTarget < CylinderCount
      ensures Valid()
      ensures selectedCylinder.None? && !isSubmitted && !confirming && !isShuffling
      ensures targetIndex == initialTarget && feedback.None?
    {
      selectedCylinder := None;
      isSubmitted := false;
      confirming := false;
      targetIndex := initialTarget;
      feedback := None;
      isShuffling := false;
    }

    /**
     * A click on cylinder `idx`, on the canvas or on its numbered button:
     * ignored once submitted or while reshuffling; otherwise it selects the
     * cylinder and disarms the confirmation.
     */
    method SelectCylinder(idx: int)
      requires Valid() && 0 <= idx < CylinderCount
      modifies this
      ensures Valid()
      ensures old(isSubmitted) || old(isShuffling) ==> unchanged(this)
      ensures !old(isSubmitted) && !old(isShuffling) ==>
                selectedCylinder == Some(idx) && !confirming &&
                isSubmitted == old(isSubmitted) && isShuffling == old(isShuffling) &&
                targetIndex == old(targetIndex) && feedback == old(feedback)
    {
      if !isSubmitted && !isShuffling {
        selectedCylinder := Some(idx);
        confirming := false;
      }
    }

    /**
     * `handleButtonClick`. The result is the argument passed to `onComplete`,
     * or `None` when it is not called; it is never called with `false`.
     */
    method HandleButtonClick() returns (completed: Option<bool>)
      requires Valid()
      modifies this
      ensures Valid()
      ensures completed != Some(false)
      ensures targetIndex == old(targetIndex)
      ensures old(selectedCylinder).None? || old(isShuffling) ==> completed.None? && unchanged(this)
      ensures old(selectedCylinder).Some? && !old(isShuffling) && !old(confirming) ==>
                completed.None? && confirming && selectedCylinder == old(selectedCylinder) &&
                isSubmitted == old(isSubmitted) && !isShuffling && feedback == old(feedback)
      ensures old(selectedCylinder) == Some(old(targetIndex)) && !old(isShuffling) && old(confirming) ==>
                completed == Some(true) && isSubmitted && feedback.None? &&
                selectedCylinder == old(selectedCylinder) && confirming && !isShuffling
      ensures old(selectedCylinder).Some? && old(selectedCylinder) != Some(old(targetIndex)) &&
              !old(isShuffling) && old(confirming) ==>
                completed.None? && isShuffling && selectedCylinder.None? && !confirming &&
                feedback == Some(WrongPickMessage) && isSubmitted == old(isSubmitted)
    {
      completed := None;
      if selectedCylinder.None? || isShuffling {
        return;
      }
      if !confirming {
        confirming := true;
      } else if selectedCylinder == Some(targetIndex) {
        isSubmitted := true;
        feedback := None;
        completed := Some(true);
      } else {
        feedback := Some(WrongPickMessage);
        isShuffling := true;
        selectedCylinder := None;
        confirming := false;
      }
    }

    /**
     * A press of the confirm button as rendered: the button is disabled with
     * nothing selected, after a correct answer and while reshuffling, so
     * `onComplete(true)` is reported at most once.
     */
    method PressButton() returns (completed: Option<bool>)
      requires Valid()
      modifies this
      ensures Valid()
      ensures completed != Some(false)
      ensures old(selectedCylinder).None? || old(isSubmitted) || old(isShuffling) ==>
                completed.None? && unchanged(this)
      ensures completed == Some(true) ==> !old(isSubmitted) && isSubmitted
      ensures targetIndex == old(targetIndex)
      ensures old(selectedCylinder).Some? && !old(isSubmitted) && !old(isShuffling) && !old(confirming) ==>
                completed.None? && confirming && selectedCylinder == old(selectedCylinder) &&
                !isSubmitted && !isShuffling && feedback == old(feedback)
      ensures old(selectedCylinder) == Some(old(targetIndex)) && !old(isSubmitted) &&
              !old(isShuffling) && old(confirming) ==>
                completed == Some(true) && isSubmitted && feedback.None? &&
                selectedCylinder == old(selectedCylinder) && confirming && !isShuffling
      ensures old(selectedCylinder).Some? && old(selectedCylinder) != Some(old(targetIndex)) &&
              !old(isSubmitted) && !old(isShuffling) && old(confirming) ==>
                completed.None? && isShuffling && selectedCylinder.None? && !confirming &&
                feedback == Some(WrongPickMessage) && !isSubmitted
    {
      if selectedCylinder.None? || isSubmitted || isShuffling {
        completed := None;
        return;
      }
      completed := HandleButtonClick();
    }

    /**
     * The end of the reshuffle delay. `draws` are the successive values of
     * `Math.floor(Math.random() * 5)`; the first one that differs from the
     * old target becomes the new target, and the reshuffle ends.
     */
    method FinishReshuffle(draws: seq<int>)
      requires Valid() && isShuffling
      requires forall i :: 0 <= i < |draws| ==> 0 <= draws[i] < CylinderCount
      requires exists i :: 0 <= i < |draws| && draws[i] != targetIndex
      modifies this
      ensures Valid()
      ensures targetIndex != old(targetIndex)
      ensures exists k :: 0 <= k < |draws| && targetIndex == draws[k] &&
                forall j :: 0 <= j < k ==> draws[j] == old(targetIndex)
      ensures !isShuffling && feedback.None?
      ensures selectedCylinder == old(selectedCylinder) && confirming == old(confirming) &&
              isSubmitted == old(isSubmitted)
    {
      var old_target := targetIndex;
      var k := 0;
      var newIndex := draws[0];
      while newIndex == old_target
        invariant 0 <= k < |draws| && newIndex == draws[k]
        invariant forall j :: 0 <= j < k ==> draws[j] == old_target
        invariant exists i :: k <= i < |draws| && draws[i] != old_target
        decreases |draws| - k
      {
        k := k + 1;
        newIndex := draws[k];
      }
      targetIndex := newIndex;
      isShuffling := false;
      feedback := None;
    }
  }
}
