/**
 * The substitution-cipher challenge (src/components/game/CaesarCipher.tsx):
 * the player moves a shift slider and the shown text is decrypted character
 * by character; submitting reports whether the decryption equals the answer.
 */
module CaesarCipher {
  import opened Wrappers
  import opened GameTypes

  /** The slider value: whole numbers from 1 to 25. */
  type Shift = s: int | 1 <= s <= 25 witness 1

  /** The slider's initial value. */
  const InitialShift: Shift := 1

  /** JavaScript's `%`: the remainder takes the sign of the dividend. */
  function JsRem(a: int, b: int): (r: int)
    requires b > 0
    ensures a >= 0 ==> r == a % b
  {
    if a >= 0 then a % b else -((-a) % b)
  }

  predicate IsUpper(c: char) { 'A' <= c <= 'Z' }
  predicate IsLower(c: char) { 'a' <= c <= 'z' }

  /** One character of `decrypt`: letters are rotated back within their own case. */
  function DecryptChar(c: char, shift: Shift): char
  {
    if IsUpper(c) then (JsRem(c as int - 65 - shift + 26, 26) + 65) as char
    else if IsLower(c) then (JsRem(c as int - 97 - shift + 26, 26) + 97) as char
    else c
  }

  /** `decrypt(text, shift)`: the text mapped character by character. */
  function Decrypt(text: string, shift: Shift): (r: string)
    ensures |r| == |text|
    ensures forall i :: 0 <= i < |text| ==> r[i] == DecryptChar(text[i], shift)
  {
    seq(|text|, i requires 0 <= i < |text| => DecryptChar(text[i], shift))
  }

  /** `handleSubmit`: correct exactly when the decryption equals the answer, case-sensitively. */
  function HandleSubmit(challenge: Challenge, shift: Shift): (correct: bool)
    requires challenge.encryptedText.Some?
    ensures correct <==> challenge.encryptedText.value == Decrypt(challenge.correctAnswer, 26 - shift)
  {
    SubmitAcceptsExactlyTheEncryption(challenge.encryptedText.value, shift, challenge.correctAnswer);
    Decrypt(challenge.encryptedText.value, shift) == challenge.correctAnswer
  }

  /** Offset of a letter inside its 26-letter alphabet. */
  function LetterBase(c: char): int
  {
    if IsUpper(c) then 65 else 97
  }

  lemma RotateBack(x: int, s: int)
    requires 0 <= x < 26 && 1 <= s <= 25
    ensures 0 <= (x - s + 26) % 26 < 26
    ensures ((x - s + 26) % 26 + s) % 26 == x
  {
    if x < s {
      assert (x - s + 26) % 26 == x - s + 26;
    } else {
      assert (x - s + 26) % 26 == x - s;
    }
  }

  /**
   * A decrypted character is what encrypting by the same shift turns back into
   * the input: a letter stays in its case and moves `shift` places back; any
   * other character is unchanged.
   */
  lemma {:induction false} DecryptCharMeaning(c: char, shift: Shift)
    ensures IsUpper(c) ==> IsUpper(DecryptChar(c, shift))
    ensures IsLower(c) ==> IsLower(DecryptChar(c, shift))
    ensures (IsUpper(c) || IsLower(c)) ==>
              (DecryptChar(c, shift) as int - LetterBase(c) + shift) % 26 == c as int - LetterBase(c)
    ensures !IsUpper(c) && !IsLower(c) ==> DecryptChar(c, shift) == c
  {
    if IsUpper(c) || IsLower(c) {
      RotateBack(c as int - LetterBase(c), shift);
    }
  }

  lemma {:induction false} DecryptCharRoundTrip(c: char, shift: Shift)
    ensures DecryptChar(DecryptChar(c, shift), 26 - shift) == c
  {
    if IsUpper(c) || IsLower(c) {
      var x := c as int - LetterBase(c);
      RotateBack(x, shift);
      var d := DecryptChar(c, shift);
      assert d as int - LetterBase(c) == (x - shift + 26) % 26;
      assert (d as int - LetterBase(c) - (26 - shift) + 26) % 26 == x;
    }
  }

  /** Decrypting by `s` and then by `26 - s` gives back the original text. */
  lemma {:induction false} DecryptRoundTrip(text: string, shift: Shift)
    ensures Decrypt(Decrypt(text, shift), 26 - shift) == text
  {
    var once := Decrypt(text, shift);
    var twice := Decrypt(once, 26 - shift);
    forall i | 0 <= i < |text| ensures twice[i] == text[i] {
      DecryptCharRoundTrip(text[i], shift);
    }
  }

  /**
   * Submitting accepts exactly the encrypted texts that are the answer shifted
   * forward by the chosen shift.
   */
  lemma {:induction false} SubmitAcceptsExactlyTheEncryption(encrypted: string, shift: Shift, answer: string)
    ensures Decrypt(encrypted, shift) == answer <==> encrypted == Decrypt(answer, 26 - shift)
  {
    DecryptRoundTrip(encrypted, shift);
    DecryptRoundTrip(answer, 26 - shift);
  }

  /** Adding two different shifts to one letter offset lands on different letters. */
  lemma {:induction false} ShiftInjective(d: int, s1: Shift, s2: Shift)
    requires 0 <= d < 26 && (d + s1) % 26 == (d + s2) % 26
    ensures s1 == s2
  {
    if d + s1 < 26 {
      assert (d + s1) % 26 == d + s1;
    } else {
      assert (d + s1) % 26 == d + s1 - 26;
    }
    if d + s2 < 26 {
      assert (d + s2) % 26 == d + s2;
    } else {
      assert (d + s2) % 26 == d + s2 - 26;
    }
  }

  /** On a text with at least one letter, two different shifts never decrypt alike. */
  lemma {:induction false} ShiftDeterminedByLetter(text: string, s1: Shift, s2: Shift, i: int)
    requires 0 <= i < |text| && (IsUpper(text[i]) || IsLower(text[i]))
    requires Decrypt(text, s1) == Decrypt(text, s2)
    ensures s1 == s2
  {
    var c := text[i];
    assert DecryptChar(c, s1) == DecryptChar(c, s2) by {
      assert Decrypt(text, s1)[i] == Decrypt(text, s2)[i];
    }
    DecryptCharMeaning(c, s1);
    DecryptCharMeaning(c, s2);
    var d := DecryptChar(c, s1) as int - LetterBase(c);
    ShiftInjective(d, s1, s2);
  }

  /** Decrypting the shown "Khoor" by 3 reads "Hello": case is kept letter by letter. */
  lemma HelloExample()
    ensures Decrypt("Khoor", 3) == "Hello"
  {
    var r := Decrypt("Khoor", 3);
    assert r[0] == 'H' && r[1] == 'e' && r[2] == 'l' && r[3] == 'l' && r[4] == 'o';
  }
}
