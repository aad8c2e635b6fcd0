/**
 * The character table (src/data/characters.ts): one heroine per stage, each
 * starting at affection 0, and the lookup of a character by stage name.
 */
module Characters {
  import opened Wrappers
  import opened GameTypes

  datatype Character = Character(
    id: string,
    name: string,
    stage: Stage,
    avatar: string,
    description: string,
    affection: int)

  /** Avatars are image assets; only their file names are kept. */
  const CharacterTable: seq<Character> := [
    Character("cipher", "ไฮมิยะ มิโอะ (Haimiya Mio)", Cryptography, "cipher.png",
              "สาวลึกลับผู้หลงใหลในการเข้ารหัส ชอบเล่นปริศนาและซ่อนความลับไว้ในตัวอักษร", 0),
    Character("vera", "ฮูเต๋า (Hutao)", Authentication, "vera.png",
              "ผู้พิทักษ์แห่งความจริง เธอจะไม่ยอมให้ใครผ่านถ้าพิสูจน์ตัวตนไม่ได้", 0),
    Character("aria", "อาริสะ มิฮาอิลลอฟนา คุโจ (Arisa Mihailovna Kujo)", Authorization, "aria.png",
              "ผู้กำหนดสิทธิ์แห่งราชอาณาจักร เธอจะตัดสินว่าคุณมีสิทธิ์ทำอะไรได้บ้าง", 0)
  ]

  /** The first element of `cs` satisfying `p`, as `Array.prototype.find` returns it. */
  function Find(cs: seq<Character>, p: Character -> bool): (r: Option<Character>)
    ensures r.Some? ==> r.value in cs && p(r.value)
    ensures r.Some? ==> exists i :: 0 <= i < |cs| && cs[i] == r.value && forall j :: 0 <= j < i ==> !p(cs[j])
    ensures r.None? <==> forall c :: c in cs ==> !p(c)
  {
    if cs == [] then None
    else if p(cs[0]) then Some(cs[0])
    else
      var rest := Find(cs[1..], p);
      assert rest.Some? ==> exists i :: 0 <= i < |cs| && cs[i] == rest.value && forall j :: 0 <= j < i ==> !p(cs[j]) by {
        if rest.Some? {
          var k :| 0 <= k < |cs[1..]| && cs[1..][k] == rest.value && forall j :: 0 <= j < k ==> !p(cs[1..][j]);
          assert cs[k + 1] == rest.value;
          assert forall j :: 0 <= j < k + 1 ==> !p(cs[j]) by {
            forall j | 0 <= j < k + 1 ensures !p(cs[j]) {
              if j > 0 { assert cs[j] == cs[1..][j - 1]; }
            }
          }
        }
      }
      assert rest.None? ==> forall c :: c in cs ==> !p(c) by {
        if rest.None? {
          forall c | c in cs ensures !p(c) {
            if c != cs[0] { assert c in cs[1..]; }
          }
        }
      }
      rest
  }

  /** `getCharacterByStage`: the character whose stage has the given name, if any. */
  function CharacterByStage(stage: string): (r: Option<Character>)
    ensures r.Some? ==> r.value in CharacterTable && StageName(r.value.stage) == stage
    ensures r.None? <==> forall c :: c in CharacterTable ==> StageName(c.stage) != stage
  {
    Find(CharacterTable, (c: Character) => StageName(c.stage) == stage)
  }

  /** The character looked up by id, as the dialog box does for a speaker. */
  function CharacterById(id: string): (r: Option<Character>)
  {
    Find(CharacterTable, (c: Character) => c.id == id)
  }

  /** The table holds three characters with the ids cipher, vera and aria, each at affection 0. */
  lemma TableShape()
    ensures |CharacterTable| == 3
    ensures [CharacterTable[0].id, CharacterTable[1].id, CharacterTable[2].id] == ["cipher", "vera", "aria"]
    ensures forall c :: c in CharacterTable ==> c.affection == 0
  {
  }

  /** Each stage belongs to exactly one character of the table. */
  lemma {:induction false} StageOwnedOnce(s: Stage)
    ensures exists i :: 0 <= i < |CharacterTable| && CharacterTable[i].stage == s
    ensures forall i, j ::
              0 <= i < |CharacterTable| && 0 <= j < |CharacterTable| &&
              CharacterTable[i].stage == s && CharacterTable[j].stage == s
              ==> i == j
  {
    match s
    case Cryptography => assert CharacterTable[0].stage == s;
    case Authentication => assert CharacterTable[1].stage == s;
    case Authorization => assert CharacterTable[2].stage == s;
  }

  /** Lookup by a stage's own name is total and returns that stage's character. */
  lemma {:induction false} CharacterByStageFinds(s: Stage)
    ensures CharacterByStage(StageName(s)).Some?
    ensures CharacterByStage(StageName(s)).value in CharacterTable
    ensures CharacterByStage(StageName(s)).value.stage == s
  {
    var i := match s case Cryptography => 0 case Authentication => 1 case Authorization => 2;
    assert CharacterTable[i].stage == s;
    var r := CharacterByStage(StageName(s));
    assert r.Some?;
    StageNameInjective(r.value.stage, s);
  }

  /** A string that names no stage finds no character. */
  lemma {:induction false} CharacterByStageMisses(name: string)
    requires forall s :: StageName(s) != name
    ensures CharacterByStage(name).None?
  {
    forall c | c in CharacterTable ensures StageName(c.stage) != name {
    }
  }
}
