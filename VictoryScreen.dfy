/**
 * The ending screen (src/components/game/VictoryScreen.tsx): the affection
 * values are summed, averaged over the three characters with `Math.round`,
 * and the average is graded S, A, B or C.
 */
module VictoryScreen {
  import opened Characters

  /** The sum of every value of the affection record. */
  ghost function Total(affection: map<string, int>): (t: int)
    ensures affection == map[] ==> t == 0
    ensures (forall k :: k in affection ==> affection[k] >= 0) ==> t >= 0
    decreases |affection.Keys|
  {
    if affection == map[] then 0
    else
      var k :| k in affection;
      affection[k] + Total(affection - {k})
  }

  /** Summing may start from any key. */
  lemma {:induction false} TotalRemove(affection: map<string, int>, k: string)
    requires k in affection
    ensures Total(affection) == affection[k] + Total(affection - {k})
    decreases |affection.Keys|
  {
    var j :| j in affection && Total(affection) == affection[j] + Total(affection - {j});
    if j != k {
      var mj, mk := affection - {j}, affection - {k};
      assert mj.Keys == affection.Keys - {j} && mk.Keys == affection.Keys - {k};
      TotalRemove(mj, k);
      TotalRemove(mk, j);
      assert mj - {k} == mk - {j};
    }
  }

  /** For the controller's record with exactly the three character ids, the total is their sum. */
  lemma {:induction false} TotalOfThree(affection: map<string, int>)
    requires affection.Keys == {"cipher", "vera", "aria"}
    ensures Total(affection) == affection["cipher"] + affection["vera"] + affection["aria"]
  {
    TotalRemove(affection, "cipher");
    var m1 := affection - {"cipher"};
    assert m1.Keys == {"vera", "aria"};
    TotalRemove(m1, "vera");
    var m2 := m1 - {"vera"};
    assert m2.Keys == {"aria"};
    TotalRemove(m2, "aria");
    assert m2 - {"aria"} == map[];
  }

  /**
   * `Math.round(total / 3)`: the nearest whole number to a third of the
   * total, halves rounded up.
   */
  function Average(total: int): (avg: int)
    ensures 6 * avg - 3 <= 2 * total < 6 * avg + 3
  {
    (2 * total + 3) / 6
  }

  /** The rounded third equals `(total + 1) div 3` (division rounding down). */
  lemma AverageClosedForm(total: int)
    ensures Average(total) == (total + 1) / 3
  {
  }

  datatype Rank = S | A | B | C

  /** `getRank`: the thresholds 80, 60 and 40 on the average. */
  function GetRank(average: int): (r: Rank)
    ensures r == S <==> average >= 80
    ensures r == A <==> 60 <= average < 80
    ensures r == B <==> 40 <= average < 60
    ensures r == C <==> average < 40
  {
    if average >= 80 then S
    else if average >= 60 then A
    else if average >= 40 then B
    else C
  }

  /** The title and colour shown with each rank. */
  function RankTitle(r: Rank): string
  {
    match r
    case S => "Security Master! 💖"
    case A => "เก่งมาก!"
    case B => "ดีเลย!"
    case C => "ลองใหม่นะ~"
  }

  function RankColor(r: Rank): string
  {
    match r
    case S => "text-amber-400"
    case A => "text-love-pink"
    case B => "text-cyber-blue"
    case C => "text-muted-foreground"
  }

  /** Ranks ordered from worst to best. */
  function RankLevel(r: Rank): int
  {
    match r
    case C => 0
    case B => 1
    case A => 2
    case S => 3
  }

  /** A higher average never yields a worse rank. */
  lemma {:induction false} RankMonotone(a1: int, a2: int)
    requires a1 <= a2
    ensures RankLevel(GetRank(a1)) <= RankLevel(GetRank(a2))
  {
  }

  /** The rank shown for an affection record. */
  ghost function VictoryRank(affection: map<string, int>): Rank
  {
    GetRank(Average(Total(affection)))
  }

  /** A character's displayed score: `affection[id] || 0`. */
  function DisplayedAffection(affection: map<string, int>, id: string): (v: int)
    ensures id in affection ==> v == affection[id]
    ensures id !in affection ==> v == 0
  {
    if id in affection then affection[id] else 0
  }

  /** Raising one character's score never lowers the rank. */
  lemma {:induction false} RankMonotoneInAffection(affection: map<string, int>, id: string, v: int)
    requires affection.Keys == {"cipher", "vera", "aria"} && id in affection && affection[id] <= v
    ensures RankLevel(VictoryRank(affection)) <= RankLevel(VictoryRank(affection[id := v]))
  {
    TotalOfThree(affection);
    TotalOfThree(affection[id := v]);
    assert Total(affection) <= Total(affection[id := v]);
    RankMonotone(Average(Total(affection)), Average(Total(affection[id := v])));
  }
}
