/**
 * shuffleNumbers: the numbers of a game are shuffled and zipped onto a fixed grid of
 * screen coordinates (percentages), every target starting not completed.
 */
module Placement {
  /** A NumberPosition: the number shown, where it is drawn, and whether it was tapped. */
  datatype Position = Position(number: int, x: int, y: int, isCompleted: bool)

  /** The 3×3 grid, row by row. */
  const Grid3x3: seq<(int, int)> := [
    (25, 30), (50, 30), (75, 30),
    (25, 50), (50, 50), (75, 50),
    (25, 70), (50, 70), (75, 70)
  ]

  /** The 4×4 grid, row by row. */
  const Grid4x4: seq<(int, int)> := [
    (20, 30), (40, 30), (60, 30), (80, 30),
    (20, 45), (40, 45), (60, 45), (80, 45),
    (20, 60), (40, 60), (60, 60), (80, 60),
    (20, 75), (40, 75), (60, 75), (80, 75)
  ]

  /** The coordinate set chosen by the number of targets. */
  function GridFor(n: nat): (g: seq<(int, int)>)
    requires n == 9 || n == 16
    ensures |g| == n
  {
    if n == 9 then Grid3x3 else Grid4x4
  }

  predicate Distinct<T(==)>(s: seq<T>)
  {
    forall i, j :: 0 <= i < j < |s| ==> s[i] != s[j]
  }

  /** No two targets of the 3x3 grid share a coordinate. */
  lemma Grid3x3Distinct()
    ensures Distinct(Grid3x3)
  {
  }

  /** No two targets of the 4x4 grid share a coordinate. */
  lemma Grid4x4Distinct()
    ensures Distinct(Grid4x4)
  {
  }

  /**
   * The order that `[...numbers].sort(() => Math.random() - 0.5)` produced, given by the
   * random draws that picked it: each draw chooses (modulo the number left) which of the
   * remaining numbers comes next. Any draws give a permutation of the input.
   */
  function Shuffle(s: seq<int>, draws: seq<nat>): (r: seq<int>)
    ensures |r| == |s|
    ensures multiset(r) == multiset(s)
    decreases |s|
  {
    if |s| == 0 then []
    else
      var k := if |draws| > 0 then draws[0] % |s| else 0;
      var rest := s[..k] + s[k + 1..];
      assert s == s[..k] + [s[k]] + s[k + 1..];
      [s[k]] + Shuffle(rest, if |draws| > 0 then draws[1..] else [])
  }

  /** The numbers of a list of targets, in screen order. */
  function NumbersOf(ps: seq<Position>): (ns: seq<int>)
    ensures |ns| == |ps| && forall i :: 0 <= i < |ps| ==> ns[i] == ps[i].number
  {
    seq(|ps|, i requires 0 <= i < |ps| => ps[i].number)
  }

  /**
   * shuffleNumbers for the two grid sizes the catalogue produces: the i-th shuffled number
   * goes to the i-th grid coordinate. Any other length has no grid (script.js fails on it).
   */
  function Place(numbers: seq<int>, draws: seq<nat>): (r: seq<Position>)
    requires |numbers| == 9 || |numbers| == 16
    ensures |r| == |numbers|
    ensures multiset(NumbersOf(r)) == multiset(numbers)
  {
    var shuffled := Shuffle(numbers, draws);
    var grid := GridFor(|numbers|);
    var r := seq(|numbers|, i requires 0 <= i < |numbers| =>
      Position(shuffled[i], grid[i].0, grid[i].1, false));
    assert NumbersOf(r) == shuffled;
    r
  }

  /** The i-th target sits on the i-th cell of the grid for its size, not yet completed. */
  lemma PlaceOnGrid(numbers: seq<int>, draws: seq<nat>)
    requires |numbers| == 9 || |numbers| == 16
    ensures var r := Place(numbers, draws);
      forall i :: 0 <= i < |r| ==> (r[i].x, r[i].y) == GridFor(|numbers|)[i] && !r[i].isCompleted
  { }

  /** Every number of the game is on the board exactly once, so the placement is a bijection. */
  lemma {:induction false} PlaceIsBijection(numbers: seq<int>, draws: seq<nat>, v: int)
    requires |numbers| == 9 || |numbers| == 16
    requires Distinct(numbers)
    ensures Distinct(NumbersOf(Place(numbers, draws)))
    ensures v in numbers <==> v in NumbersOf(Place(numbers, draws))
  {
    var ns := NumbersOf(Place(numbers, draws));
    assert multiset(ns) == multiset(numbers);
    DistinctFromMultiset(numbers, ns);
    assert v in numbers <==> v in multiset(numbers);
    assert v in ns <==> v in multiset(ns);
  }

  /** A sequence with the same multiset as a duplicate-free one is duplicate-free. */
  lemma {:induction false} DistinctFromMultiset(s: seq<int>, t: seq<int>)
    requires Distinct(s) && multiset(s) == multiset(t)
    ensures Distinct(t)
  {
    forall i, j | 0 <= i < j < |t| ensures t[i] != t[j] {
      if t[i] == t[j] {
        var v := t[i];
        assert t == t[..i] + [v] + t[i + 1..j] + [v] + t[j + 1..];
        assert multiset(t)[v] >= 2;
        CountAtMostOne(s, v);
        assert false;
      }
    }
  }

  lemma {:induction false} CountAtMostOne(s: seq<int>, v: int)
    requires Distinct(s)
    ensures multiset(s)[v] <= 1
  {
    if |s| > 0 {
      assert s == [s[0]] + s[1..];
      CountAtMostOne(s[1..], v);
      if s[0] == v {
        assert v !in s[1..];
        assert multiset(s[1..])[v] == 0;
      }
    }
  }

  /**
   * The update of a correct tap: every target showing `n` becomes completed, every other
   * target is left as it was.
   */
  function MarkCompleted(ps: seq<Position>, n: int): (r: seq<Position>)
    ensures |r| == |ps|
    ensures NumbersOf(r) == NumbersOf(ps)
    ensures forall i :: 0 <= i < |ps| ==>
      (r[i].x, r[i].y) == (ps[i].x, ps[i].y) &&
      r[i].isCompleted == (ps[i].isCompleted || ps[i].number == n)
  {
    seq(|ps|, i requires 0 <= i < |ps| =>
      if ps[i].number == n then ps[i].(isCompleted := true) else ps[i])
  }

  /** On a board without repeated numbers a correct tap completes exactly one more target. */
  lemma {:induction false} MarkCompletedFlipsOne(ps: seq<Position>, n: int, k: nat)
    requires Distinct(NumbersOf(ps))
    requires k < |ps| && ps[k].number == n && !ps[k].isCompleted
    ensures MarkCompleted(ps, n)[k].isCompleted
    ensures forall i :: 0 <= i < |ps| && i != k ==> MarkCompleted(ps, n)[i] == ps[i]
  {
    var r := MarkCompleted(ps, n);
    forall i | 0 <= i < |ps| && i != k ensures r[i] == ps[i] {
      assert NumbersOf(ps)[i] != NumbersOf(ps)[k];
    }
  }

  /** Exactly the targets showing one of the first `k` numbers of `ns` are completed. */
  predicate CompletedFirst(ps: seq<Position>, ns: seq<int>, k: nat)
  {
    k <= |ns| &&
    forall i :: 0 <= i < |ps| ==> (ps[i].isCompleted <==> ps[i].number in ns[..k])
  }

  /** Completing the target of the next number extends the completed prefix by one. */
  lemma {:induction false} MarkNextCompleted(ps: seq<Position>, ns: seq<int>, k: nat)
    requires CompletedFirst(ps, ns, k) && k < |ns|
    ensures CompletedFirst(MarkCompleted(ps, ns[k]), ns, k + 1)
  {
    var r := MarkCompleted(ps, ns[k]);
    assert ns[..k + 1] == ns[..k] + [ns[k]];
    forall i | 0 <= i < |r| ensures r[i].isCompleted <==> r[i].number in ns[..k + 1] {
      assert r[i].number == NumbersOf(r)[i] == NumbersOf(ps)[i] == ps[i].number;
    }
  }

  /** A fresh placement has nothing completed. */
  lemma FreshPlacementCompletesNothing(numbers: seq<int>, draws: seq<nat>)
    requires |numbers| == 9 || |numbers| == 16
    ensures CompletedFirst(Place(numbers, draws), numbers, 0)
  {
    PlaceOnGrid(numbers, draws);
    assert numbers[..0] == [];
  }

  /** When all numbers are done, every target of a board holding exactly them is completed. */
  lemma {:induction false} AllCompleted(ps: seq<Position>, ns: seq<int>)
    requires CompletedFirst(ps, ns, |ns|) && multiset(NumbersOf(ps)) == multiset(ns)
    ensures forall i :: 0 <= i < |ps| ==> ps[i].isCompleted
  {
    assert ns[..|ns|] == ns;
    forall i | 0 <= i < |ps| ensures ps[i].isCompleted {
      assert NumbersOf(ps)[i] == ps[i].number;
      assert ps[i].number in multiset(NumbersOf(ps));
    }
  }
}
