/**
 * The fill-in-the-blank challenge (src/components/game/FillInTheBlank.tsx):
 * the canonical answer lists `|`-separated alternatives, and the typed answer
 * is compared with each after trimming and lower-casing both.
 */
module FillInTheBlank {
  import opened Wrappers
  import opened JsString

  /** `.trim().toLowerCase()`, applied to both sides of the comparison. */
  function Normalize(s: string): string
  {
    ToLower(Trim(s))
  }

  /** The accepted alternatives: `correctAnswer.split('|')`. */
  function Alternatives(correctAnswer: string): seq<string>
  {
    Split(correctAnswer, '|')
  }

  /** `handleSubmit`: the single verdict handed to `onComplete`. */
  function HandleSubmit(correctAnswer: string, answer: string): (correct: bool)
    ensures correct <==> exists a :: a in Alternatives(correctAnswer) && Normalize(a) == Normalize(answer)
  {
    var accepted := seq(|Alternatives(correctAnswer)|, i requires 0 <= i < |Alternatives(correctAnswer)| =>
                          Normalize(Alternatives(correctAnswer)[i]));
    assert forall a :: a in Alternatives(correctAnswer) ==> Normalize(a) in accepted by {
      forall a | a in Alternatives(correctAnswer) ensures Normalize(a) in accepted {
        var i :| 0 <= i < |Alternatives(correctAnswer)| && Alternatives(correctAnswer)[i] == a;
        assert accepted[i] == Normalize(a);
      }
    }
    Normalize(answer) in accepted
  }

  /** The input's `onKeyDown`: Enter submits exactly as the button does; other keys do nothing. */
  function HandleKeyDown(key: string, correctAnswer: string, answer: string): (verdict: Option<bool>)
    ensures verdict.Some? <==> key == "Enter"
    ensures verdict.Some? ==> verdict.value == HandleSubmit(correctAnswer, answer)
  {
    if key == "Enter" then Some(HandleSubmit(correctAnswer, answer)) else None
  }

  /** Whitespace around the typed answer never changes the verdict. */
  lemma {:induction false} VerdictIgnoresPadding(correctAnswer: string, ws1: string, answer: string, ws2: string)
    requires AllWhitespace(ws1) && AllWhitespace(ws2)
    ensures HandleSubmit(correctAnswer, ws1 + answer + ws2) == HandleSubmit(correctAnswer, answer)
  {
    TrimPadding(ws1, answer, ws2);
    assert Normalize(ws1 + answer + ws2) == Normalize(answer);
  }

  /** Two answers that differ only in letter case get the same verdict. */
  lemma {:induction false} VerdictIgnoresCase(correctAnswer: string, answer1: string, answer2: string)
    requires ToLower(answer1) == ToLower(answer2)
    ensures HandleSubmit(correctAnswer, answer1) == HandleSubmit(correctAnswer, answer2)
  {
    TrimLowerCommute(answer1);
    TrimLowerCommute(answer2);
    assert Normalize(answer1) == Normalize(answer2);
  }

  /** An empty answer is accepted only when some alternative is blank after trimming. */
  lemma {:induction false} EmptyAnswer(correctAnswer: string)
    ensures HandleSubmit(correctAnswer, "") <==> exists a :: a in Alternatives(correctAnswer) && Trim(a) == ""
  {
    assert Trim("") == "";
    assert Normalize("") == "";
    forall a ensures Normalize(a) == "" <==> Trim(a) == "" {
      assert |Normalize(a)| == |Trim(a)|;
    }
  }

  lemma NormalizeWord(w: string)
    requires |w| > 0 && !IsWhitespace(w[0]) && !IsWhitespace(w[|w| - 1])
    ensures Normalize(w) == ToLower(w)
  {
  }

  lemma CatDogAlternatives()
    ensures Alternatives("cat|dog") == ["cat", "dog"]
  {
    assert Join(["cat", "dog"], '|') == "cat|dog";
    SplitJoin(["cat", "dog"], '|');
  }

  /** " Dog " and "dog" both normalise to "dog". */
  lemma CatDogNormalized()
    ensures Normalize(" Dog ") == Normalize("dog") == "dog"
  {
    TrimPadding(" ", "Dog", " ");
    assert " " + "Dog" + " " == " Dog ";
    NormalizeWord("Dog");
    NormalizeWord("dog");
    assert ToLower("Dog") == "dog";
    assert ToLower("dog") == "dog";
  }

  /** "cat" and "bird" keep their first letters when normalised, so they differ from each other and from "dog". */
  lemma CatBirdNormalized()
    ensures Normalize("cat")[0] == 'c' && Normalize("bird")[0] == 'b'
  {
    NormalizeWord("cat");
    NormalizeWord("bird");
  }

  /** With alternatives "cat|dog", " Dog " is accepted and "bird" is not. */
  lemma CatDogExample()
    ensures HandleSubmit("cat|dog", " Dog ")
    ensures !HandleSubmit("cat|dog", "bird")
  {
    CatDogAlternatives();
    CatDogNormalized();
    CatBirdNormalized();
    var alts := Alternatives("cat|dog");
    assert alts[1] in alts && Normalize(alts[1]) == Normalize(" Dog ");
    forall a | a in alts ensures Normalize(a) != Normalize("bird") {
      assert a == "cat" || a == "dog";
    }
  }
}
