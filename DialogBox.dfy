/**
 * The dialog box (src/components/game/DialogBox.tsx): the line's text, or a
 * pending response, is typed out one character per timer tick; a click
 * either reveals the whole text or asks the stage to advance.
 */
module DialogBox {
  import opened Wrappers
  import opened GameTypes
  import opened Characters

  /** JavaScript truthiness of an optional string: present and non-empty. */
  predicate Truthy(s: Option<string>)
  {
    s.Some? && s.value != ""
  }

  /** `showResponse || dialog.text`. */
  function TextToDisplay(showResponse: Option<string>, line: DialogLine): (t: string)
    ensures Truthy(showResponse) ==> t == showResponse.value
    ensures !Truthy(showResponse) ==> t == line.text
  {
    if Truthy(showResponse) then showResponse.value else line.text
  }

  /**
   * The name shown above the box: the speaker's, looked up by id when the
   * line names one, and hidden while a response shows.
   */
  function SpeakerName(line: DialogLine, showResponse: Option<string>): (name: Option<string>)
    ensures name.Some? ==> !Truthy(showResponse) && Truthy(line.character)
    ensures name.Some? ==> exists c :: c in CharacterTable && c.id == line.character.value && c.name == name.value
    ensures !Truthy(showResponse) && Truthy(line.character) ==>
              ((exists c :: c in CharacterTable && c.id == line.character.value) ==> name.Some?)
  {
    var speaker := if Truthy(line.character) then CharacterById(line.character.value) else None;
    if speaker.Some? && !Truthy(showResponse) then Some(speaker.value.name) else None
  }

  /** Whether a click on a fully shown text calls `onNext`. */
  predicate ClickAdvances(line: DialogLine, showResponse: Option<string>)
  {
    !line.isChoice || Truthy(showResponse)
  }

  /** The choice buttons show on a choice line with choices, once typing is over and no response shows. */
  predicate ChoicesVisible(line: DialogLine, isTyping: bool, showResponse: Option<string>)
  {
    line.isChoice && line.choices.Some? && !isTyping && !Truthy(showResponse)
  }

  /** The choice buttons and the advancing click never apply at the same moment. */
  lemma {:induction false} ChoicesExcludeAdvance(line: DialogLine, isTyping: bool, showResponse: Option<string>)
    ensures ChoicesVisible(line, isTyping, showResponse) ==> !ClickAdvances(line, showResponse)
    ensures !line.isChoice ==> !ChoicesVisible(line, isTyping, showResponse) && ClickAdvances(line, showResponse)
  {
  }

  /** The typing state: the revealed text, the typing flag and the reveal timer. */
  class Typewriter {
    var target: string
    var displayedText: string
    var isTyping: bool
    var revealIndex: int
    var timerRunning: bool

    /** What every handler keeps: the shown text is a prefix of the target. */
    ghost predicate Valid()
      reads this
    {
      && 0 <= revealIndex <= |target|
      && displayedText <= target
      && (isTyping ==> timerRunning && displayedText == target[..revealIndex])
      && (timerRunning ==> displayedText == target[..revealIndex] || displayedText == target)
    }

    /** Once typing is over, the whole target is shown and the timer is off. */
    ghost predicate Settled()
      reads this
    {
      && Valid()
      && (timerRunning <==> isTyping)
      && (!isTyping ==> displayedText == target)
    }

    constructor (text: string)
      ensures Settled()
      ensures target == text && displayedText == [] && isTyping && revealIndex == 0 && timerRunning
    {
      target := text;
      displayedText := [];
      isTyping := true;
      revealIndex := 0;
      timerRunning := true;
    }

    /**
     * A render with `text` to display. The effect depends on the text only,
     * so the same text again changes nothing; a different text clears the
     * box, cancels the old interval and restarts typing.
     */
    method ShowText(text: string)
      modifies this
      ensures text == old(target) ==> unchanged(this)
      ensures text != old(target) ==> Settled()
      ensures text != old(target) ==>
                target == text && displayedText == [] && isTyping && revealIndex == 0 && timerRunning
    {
      if text == target {
        return;
      }
      target := text;
      displayedText := [];
      isTyping := true;
      revealIndex := 0;
      timerRunning := true;
    }

    /** One interval tick: reveal one more character, or stop once all are shown. */
    method Tick()
      requires Valid()
      modifies this
      ensures Valid()
      ensures old(Settled()) ==> Settled()
      ensures target == old(target)
      ensures !old(timerRunning) ==> unchanged(this)
      ensures old(timerRunning) && old(revealIndex) < |target| ==>
                displayedText == target[..old(revealIndex) + 1] && revealIndex == old(revealIndex) + 1 &&
                isTyping == old(isTyping) && timerRunning
      ensures old(timerRunning) && old(revealIndex) == |target| ==>
                !isTyping && !timerRunning && displayedText == old(displayedText) && revealIndex == old(revealIndex)
    {
      if !timerRunning {
        return;
      }
      if revealIndex < |target| {
        displayedText := target[..revealIndex + 1];
        revealIndex := revealIndex + 1;
      } else {
        isTyping := false;
        timerRunning := false;
      }
    }

    /** The interval left to run to its end: the whole text ends up shown and typing stops. */
    method RunTimer()
      requires Valid()
      modifies this
      ensures Valid() && !isTyping && !timerRunning
      ensures target == old(target)
      ensures old(timerRunning) ==> displayedText == target && revealIndex == |target|
      ensures !old(timerRunning) ==> unchanged(this)
      ensures old(Settled()) ==> Settled()
    {
      ghost var wasSettled := Settled();
      ghost var wasRunning := timerRunning;
      while timerRunning
        invariant Valid() && target == old(target)
        invariant wasSettled ==> Settled()
        invariant !timerRunning ==> !isTyping
        invariant wasRunning && !timerRunning ==> displayedText == target && revealIndex == |target|
        invariant !wasRunning ==> unchanged(this)
        decreases timerRunning, |target| - revealIndex
      {
        Tick();
      }
    }

    /**
     * `handleClick` as written: while typing it shows the whole text and
     * clears the typing flag but leaves the reveal timer running.
     */
    method ClickAsWritten(line: DialogLine, showResponse: Option<string>) returns (advance: bool)
      requires Valid()
      modifies this
      ensures Valid()
      ensures target == old(target) && revealIndex == old(revealIndex) && timerRunning == old(timerRunning)
      ensures old(isTyping) ==> !advance && displayedText == target && !isTyping
      ensures !old(isTyping) ==> advance == ClickAdvances(line, showResponse) && unchanged(this)
    {
      advance := false;
      if isTyping {
        displayedText := target;
        isTyping := false;
      } else if ClickAdvances(line, showResponse) {
        advance := true;
      }
    }

    /**
     * `handleClick` with the reveal stopped as well: while typing it shows
     * the whole text for good and does not advance; afterwards it advances
     * unless a choice is waiting to be made.
     */
    method Click(line: DialogLine, showResponse: Option<string>) returns (advance: bool)
      requires Settled()
      modifies this
      ensures Settled()
      ensures target == old(target) && !isTyping && displayedText == target
      ensures revealIndex == old(revealIndex) && !timerRunning
      ensures old(isTyping) ==> !advance
      ensures !old(isTyping) ==> advance == ClickAdvances(line, showResponse) && unchanged(this)
    {
      advance := false;
      if isTyping {
        displayedText := target;
        isTyping := false;
        timerRunning := false;
      } else if ClickAdvances(line, showResponse) {
        advance := true;
      }
    }
  }

  /**
   * As written, a reveal-all click is undone by the next tick: on "Hey",
   * one tick, a click and one more tick leave "He" on screen with typing
   * already marked finished.
   */
  method RevealAllThenTickAsWritten() returns (shown: string, typing: bool)
    ensures shown == "He" && !typing
  {
    var line := DialogLine(None, "Hey", false, None, false, None);
    var box := new Typewriter(TextToDisplay(None, line));
    box.Tick();
    var _ := box.ClickAsWritten(line, None);
    box.Tick();
    shown, typing := box.displayedText, box.isTyping;
  }

  /** With the timer stopped by the click, the same sequence keeps "Hey" on screen. */
  method RevealAllThenTick() returns (shown: string, typing: bool)
    ensures shown == "Hey" && !typing
  {
    var line := DialogLine(None, "Hey", false, None, false, None);
    var box := new Typewriter(TextToDisplay(None, line));
    box.Tick();
    var _ := box.Click(line, None);
    box.Tick();
    shown, typing := box.displayedText, box.isTyping;
  }
}
