/**
 * The mode catalogue and sequence generation, shared by src/app/page.tsx and
 * script.js (their GAME_MODES constants and generateMultiples functions are identical).
 */
module Modes {
  import opened Wrappers

  /** The grid size, written '3x3' (9 targets) or '4x4' (16 targets) in the source. */
  datatype Difficulty = Small | Large

  /** The text used for a difficulty in score keys. */
  function Label(d: Difficulty): string
  {
    match d
    case Small => "3x3"
    case Large => "4x4"
  }

  /** A game mode; `numbers` is filled in by startGame for the multiples modes. */
  datatype Mode = Mode(name: string, numbers: seq<int>)

  const BaseName: string := "初級（1-9）"
  /** The base mode's numbers, [1, 2, ..., 9]. */
  const BaseNumbers: seq<int> := [1, 2, 3, 4, 5, 6, 7, 8, 9]

  /** The suffix of every multiples mode's name ("multiples of"). */
  const MultiplesSuffix: string := "の倍数"

  /** GAME_MODES: the fixed base mode, then "k の倍数" for k = 2..9 with no numbers yet. */
  const GameModes: seq<Mode> := [
    Mode(BaseName, [1, 2, 3, 4, 5, 6, 7, 8, 9]),
    Mode("2の倍数", []), Mode("3の倍数", []), Mode("4の倍数", []), Mode("5の倍数", []),
    Mode("6の倍数", []), Mode("7の倍数", []), Mode("8の倍数", []), Mode("9の倍数", [])
  ]

  /** A name of one of the eight multiples modes: a digit from 2 to 9, then the suffix. */
  predicate IsMultiplesName(name: string)
  {
    |name| == 1 + |MultiplesSuffix| && '2' <= name[0] <= '9' && name[1..] == MultiplesSuffix
  }

  /** The catalogue is the base mode followed by exactly the eight multiples modes, k = 2..9. */
  lemma CatalogueShape()
    ensures GameModes[0] == Mode(BaseName, BaseNumbers) && !IsMultiplesName(BaseName)
    ensures forall i :: 1 <= i < |GameModes| ==>
      IsMultiplesName(GameModes[i].name) && GameModes[i].numbers == [] &&
      Multiplier(GameModes[i].name) == i + 1
  {
  }

  /**
   * A mode the screens can hand to selectMode or startGame: a catalogue mode, or the copy
   * startGame stores (same name, numbers replaced), which playAgain passes back in.
   */
  predicate ValidMode(m: Mode)
  {
    (m.name == BaseName && m.numbers == BaseNumbers) || IsMultiplesName(m.name)
  }

  /** parseInt(name.charAt(0)) for a name whose first character is a decimal digit. */
  function Multiplier(name: string): (k: int)
    requires IsMultiplesName(name)
    ensures 2 <= k <= 9
  {
    (name[0] as int) - ('0' as int)
  }

  predicate StrictlyIncreasing(s: seq<int>)
  {
    forall i, j :: 0 <= i < j < |s| ==> s[i] < s[j]
  }

  /** The number of targets: 9 for '3x3', 16 otherwise. */
  function Count(d: Difficulty): nat
  {
    if d == Small then 9 else 16
  }

  lemma {:induction false} ScaleStrictlyIncreasing(m: int, i: int, j: int)
    requires m >= 1 && 0 <= i < j
    ensures (i + 1) * m < (j + 1) * m
  {
    var k := j - i - 1;
    assert (j + 1) * m == (i + 1) * m + m + k * m;
    assert k * m >= 0;
  }

  /** The first `n` multiples of `multiplier`, built from the back. */
  function Multiples(multiplier: int, n: nat): (r: seq<int>)
    ensures |r| == n
  {
    if n == 0 then [] else Multiples(multiplier, n - 1) + [n * multiplier]
  }

  /** generateMultiples: `Array.from({length: count}, (_, i) => (i + 1) * multiplier)`. */
  function GenerateMultiples(multiplier: int, d: Difficulty): (r: seq<int>)
    ensures |r| == (if d == Small then 9 else 16)
  {
    Multiples(multiplier, Count(d))
  }

  /** Element i of Multiples is (i + 1) * multiplier. */
  lemma {:induction false} MultiplesElements(multiplier: int, n: nat)
    ensures forall i :: 0 <= i < n ==> Multiples(multiplier, n)[i] == (i + 1) * multiplier
  {
    if n > 0 {
      MultiplesElements(multiplier, n - 1);
      var r := Multiples(multiplier, n);
      assert r == Multiples(multiplier, n - 1) + [n * multiplier];
      forall i | 0 <= i < n ensures r[i] == (i + 1) * multiplier {
        if i < n - 1 {
          assert r[i] == Multiples(multiplier, n - 1)[i];
        }
      }
    }
  }

  /** generateMultiples(m, d) has 9 elements at '3x3', 16 otherwise, and element i is (i + 1) * m. */
  lemma GenerateMultiplesElements(multiplier: int, d: Difficulty)
    ensures |GenerateMultiples(multiplier, d)| == (if d == Small then 9 else 16)
    ensures forall i :: 0 <= i < |GenerateMultiples(multiplier, d)| ==>
      GenerateMultiples(multiplier, d)[i] == (i + 1) * multiplier
  {
    MultiplesElements(multiplier, Count(d));
  }

  /** For a positive multiplier the multiples are positive and strictly increasing. */
  lemma {:induction false} MultiplesIncreasing(multiplier: int, d: Difficulty)
    requires multiplier >= 1
    ensures StrictlyIncreasing(GenerateMultiples(multiplier, d))
    ensures forall i :: 0 <= i < |GenerateMultiples(multiplier, d)| ==> GenerateMultiples(multiplier, d)[i] > 0
  {
    var r := GenerateMultiples(multiplier, d);
    GenerateMultiplesElements(multiplier, d);
    forall i, j | 0 <= i < j < |r| ensures r[i] < r[j] {
      ScaleStrictlyIncreasing(multiplier, i, j);
    }
  }

  /**
   * The numbers startGame plays: the base mode's own list, otherwise
   * generateMultiples(parseInt(name.charAt(0)), difficulty).
   */
  function SequenceFor(m: Mode, d: Difficulty): (r: seq<int>)
    requires ValidMode(m)
    ensures |r| == 9 || |r| == 16
    ensures m.name == BaseName ==> r == BaseNumbers
  {
    if m.name == BaseName then m.numbers else GenerateMultiples(Multiplier(m.name), d)
  }

  /** Every sequence a game is played with is positive and strictly increasing. */
  lemma {:induction false} SequenceForIncreasing(m: Mode, d: Difficulty)
    requires ValidMode(m)
    ensures StrictlyIncreasing(SequenceFor(m, d))
    ensures forall i :: 0 <= i < |SequenceFor(m, d)| ==> SequenceFor(m, d)[i] > 0
  {
    if m.name != BaseName {
      MultiplesIncreasing(Multiplier(m.name), d);
    }
  }

  /**
   * The key a finished game is saved under: `${name}（${difficulty}）` when a difficulty is
   * selected, the bare name otherwise.
   */
  function ModeKey(name: string, d: Option<Difficulty>): (key: string)
    ensures d.Some? ==> |key| == |name| + 5 && key[..|name|] == name && key[|name|] == '（'
    ensures d.None? ==> key == name
  {
    match d
    case Some(diff) => name + "（" + Label(diff) + "）"
    case None => name
  }

  /** The base mode is always started at '3x3', so its scores are keyed with the suffix. */
  lemma BaseKeyIsNotBaseName()
    ensures ModeKey(BaseName, Some(Small)) == BaseName + "（3x3）"
    ensures ModeKey(BaseName, Some(Small)) != BaseName
  {
  }

  /** The keys of the two difficulties of one mode never collide. */
  lemma {:induction false} KeysDistinguishDifficulty(name: string, d1: Difficulty, d2: Difficulty)
    requires d1 != d2
    ensures ModeKey(name, Some(d1)) != ModeKey(name, Some(d2))
  {
    var k1, k2 := ModeKey(name, Some(d1)), ModeKey(name, Some(d2));
    assert k1[|name| + 1] != k2[|name| + 1];
  }

  /** Multiples of 3 at '4x4' is [3, 6, ..., 48]. */
  lemma MultiplesOfThreeLarge()
    ensures ValidMode(GameModes[2])
    ensures SequenceFor(GameModes[2], Large) ==
      [3, 6, 9, 12, 15, 18, 21, 24, 27, 30, 33, 36, 39, 42, 45, 48]
  {
    CatalogueShape();
    GenerateMultiplesElements(3, Large);
  }
}
