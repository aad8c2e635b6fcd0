/**
 * The multi-select challenge (src/components/game/MultiSelectChallenge.tsx):
 * ticking a checkbox toggles an option id in the selection list, and
 * submitting compares the sorted selection with the sorted `|`-separated
 * answer ids.
 */
module MultiSelectChallenge {
  import opened JsString
  import opened JsSort

  predicate NoDuplicates(s: seq<string>)
  {
    forall i, j :: 0 <= i < j < |s| ==> s[i] != s[j]
  }

  /** The tail of a list without duplicates has none and lacks the head. */
  lemma {:induction false} NoDuplicatesTail(s: seq<string>)
    requires NoDuplicates(s) && s != []
    ensures NoDuplicates(s[1..]) && s[0] !in s[1..]
  {
    var tail := s[1..];
    forall k | 0 <= k < |tail| ensures tail[k] != s[0] {
      assert tail[k] == s[k + 1];
    }
  }

  /** A new head in front of a list without duplicates keeps it so. */
  lemma {:induction false} NoDuplicatesCons(h: string, t: seq<string>)
    requires NoDuplicates(t) && h !in t
    ensures NoDuplicates([h] + t)
  {
    var s := [h] + t;
    forall i, j | 0 <= i < j < |s| ensures s[i] != s[j] {
      assert s[j] == t[j - 1];
      if i > 0 {
        assert s[i] == t[i - 1];
      }
    }
  }

  /** `prev.filter(i => i !== id)`. */
  function Without(prev: seq<string>, id: string): (r: seq<string>)
    ensures id !in r
    ensures forall x :: x != id ==> (x in r <==> x in prev)
    ensures multiset(r) == multiset(prev)[id := 0]
    ensures NoDuplicates(prev) ==> NoDuplicates(r)
  {
    if prev == [] then []
    else
      var tail := prev[1..];
      var rest := Without(tail, id);
      assert prev == [prev[0]] + tail;
      assert multiset(prev) == multiset{prev[0]} + multiset(tail);
      if prev[0] == id then rest
      else
        assert NoDuplicates(prev) ==> NoDuplicates([prev[0]] + rest) by {
          if NoDuplicates(prev) {
            NoDuplicatesTail(prev);
            NoDuplicatesCons(prev[0], rest);
          }
        }
        assert multiset([prev[0]] + rest) == multiset{prev[0]} + multiset(rest);
        [prev[0]] + rest
  }

  /** The selection update of `handleSelect`: drop the id if it is there, append it otherwise. */
  function Toggle(prev: seq<string>, id: string): (r: seq<string>)
    ensures id in r <==> id !in prev
    ensures forall x :: x != id ==> (x in r <==> x in prev)
    ensures NoDuplicates(prev) ==> NoDuplicates(r)
  {
    if id in prev then Without(prev, id) else prev + [id]
  }

  /**
   * `handleSubmit`: both lists sorted, then equal length and equal at every
   * index.
   */
  function Verdict(correctAnswer: string, selectedIds: seq<string>): (correct: bool)
    ensures correct <==> Sort(Split(correctAnswer, '|')) == Sort(selectedIds)
    ensures correct ==> |selectedIds| == |Split(correctAnswer, '|')|
  {
    var expected := Sort(Split(correctAnswer, '|'));
    var given := Sort(selectedIds);
    |expected| == |given| && forall i :: 0 <= i < |expected| ==> expected[i] == given[i]
  }

  /** The selection the player has ticked so far. */
  class Selection {
    var selectedIds: seq<string>

    ghost predicate Valid()
      reads this
    {
      NoDuplicates(selectedIds)
    }

    constructor ()
      ensures Valid() && selectedIds == []
    {
      selectedIds := [];
    }

    /** `handleSelect(id)`. */
    method HandleSelect(id: string)
      requires Valid()
      modifies this
      ensures Valid()
      ensures selectedIds == Toggle(old(selectedIds), id)
    {
      selectedIds := Toggle(selectedIds, id);
    }

    /** `handleSubmit`: the verdict passed to `onComplete`, once per press; nothing changes. */
    method HandleSubmit(correctAnswer: string) returns (correct: bool)
      ensures correct <==> multiset(Split(correctAnswer, '|')) == multiset(selectedIds)
    {
      correct := Verdict(correctAnswer, selectedIds);
      VerdictIsMultisetEquality(correctAnswer, selectedIds);
    }
  }

  /** The sorted comparison accepts exactly the selections that hold the answer ids, in any order. */
  lemma {:induction false} VerdictIsMultisetEquality(correctAnswer: string, selectedIds: seq<string>)
    ensures Verdict(correctAnswer, selectedIds) <==> multiset(Split(correctAnswer, '|')) == multiset(selectedIds)
  {
    var expected := Sort(Split(correctAnswer, '|'));
    var given := Sort(selectedIds);
    if multiset(Split(correctAnswer, '|')) == multiset(selectedIds) {
      SortedUnique(expected, given);
    }
    if Verdict(correctAnswer, selectedIds) {
      assert expected == given;
    }
  }

  /** Selecting fewer or more ids than the answer lists always fails. */
  lemma {:induction false} WrongCountFails(correctAnswer: string, selectedIds: seq<string>)
    requires |selectedIds| != |Split(correctAnswer, '|')|
    ensures !Verdict(correctAnswer, selectedIds)
  {
    VerdictIsMultisetEquality(correctAnswer, selectedIds);
    assert |multiset(Split(correctAnswer, '|'))| != |multiset(selectedIds)|;
  }

  /**
   * Toggling the same id twice gives back the same ids; when the id was not
   * selected, the very same list.
   */
  lemma {:induction false} ToggleTwice(prev: seq<string>, id: string)
    ensures forall x :: x in Toggle(Toggle(prev, id), id) <==> x in prev
    ensures id !in prev ==> Toggle(Toggle(prev, id), id) == prev
    ensures NoDuplicates(prev) ==> multiset(Toggle(Toggle(prev, id), id)) == multiset(prev)
  {
    if id !in prev {
      WithoutAbsentAppended(prev, id);
    } else {
      var once := Without(prev, id);
      assert Toggle(once, id) == once + [id];
      if NoDuplicates(prev) {
        assert multiset(prev)[id] == 1 by {
          var k :| 0 <= k < |prev| && prev[k] == id;
          CountOne(prev, k);
        }
        assert multiset(once + [id]) == multiset(prev);
      }
    }
  }

  lemma {:induction false} WithoutAbsentAppended(s: seq<string>, id: string)
    requires id !in s
    ensures Without(s + [id], id) == s
  {
    if s != [] {
      assert (s + [id])[1..] == s[1..] + [id];
      WithoutAbsentAppended(s[1..], id);
      assert s == [s[0]] + s[1..];
    }
  }

  lemma {:induction false} CountOne(s: seq<string>, k: int)
    requires NoDuplicates(s) && 0 <= k < |s|
    ensures multiset(s)[s[k]] == 1
  {
    var x := s[k];
    assert s == s[..k] + [x] + s[k + 1..];
    assert x !in s[..k] && x !in s[k + 1..] by {
      forall i | 0 <= i < k ensures s[..k][i] != x { assert s[..k][i] == s[i]; }
      var after := s[k + 1..];
      forall i | 0 <= i < |after| ensures after[i] != x { assert after[i] == s[k + 1 + i]; }
    }
    assert multiset(s) == multiset(s[..k]) + multiset{x} + multiset(s[k + 1..]);
  }

  /** "a|b|c" lists the ids a, b and c. */
  lemma AbcSplit()
    ensures Split("a|b|c", '|') == ["a", "b", "c"]
  {
    assert Join(["a", "b", "c"], '|') == "a|b|c";
    SplitJoin(["a", "b", "c"], '|');
  }

  /** Moving the last of three ids to the front keeps the same ids. */
  lemma RotateThree<T>(x: T, y: T, z: T)
    ensures multiset([z, x, y]) == multiset([x, y, z])
  {
  }

  /** With answer "a|b|c", ticking c, a and b in that order is accepted. */
  lemma AbcAnyOrder()
    ensures Verdict("a|b|c", ["c", "a", "b"])
  {
    AbcSplit();
    RotateThree("a", "b", "c");
    VerdictIsMultisetEquality("a|b|c", ["c", "a", "b"]);
  }

  /** With answer "a|b|c", ticking too few or too many ids is rejected. */
  lemma AbcWrongCount()
    ensures !Verdict("a|b|c", ["a", "b"])
    ensures !Verdict("a|b|c", ["a", "b", "c", "d"])
  {
    AbcSplit();
    WrongCountFails("a|b|c", ["a", "b"]);
    WrongCountFails("a|b|c", ["a", "b", "c", "d"]);
  }
}
