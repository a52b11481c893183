/**
 * The personal-best table: saveScore (append, stable sort ascending by time, keep 50)
 * and getBestScore (time of the first record of a key), shared by both front ends.
 * Times are whole milliseconds; the source stores the same value divided by 1000.
 */
module Scores {
  import opened Wrappers

  /** A ScoreRecord: the mode key it was saved under, its time and the date it was made. */
  datatype ScoreRecord = ScoreRecord(mode: string, time: int, date: string)

  /** saveScore keeps this many records. */
  const MaxScores: nat := 50

  predicate SortedByTime(s: seq<ScoreRecord>)
  {
    forall i, j :: 0 <= i < j < |s| ==> s[i].time <= s[j].time
  }

  /**
   * One step of the stable sort: `r` goes after every record of the sorted list that is not
   * slower than it, and before the first slower one.
   */
  function InsertByTime(s: seq<ScoreRecord>, r: ScoreRecord): (t: seq<ScoreRecord>)
    ensures |t| == |s| + 1
    ensures multiset(t) == multiset(s) + multiset{r}
  {
    if |s| == 0 then [r]
    else if r.time < s[0].time then [r] + s
    else
      assert s == [s[0]] + s[1..];
      [s[0]] + InsertByTime(s[1..], r)
  }

  /** Inserting a record no faster than a bound into a list no faster than it keeps the bound. */
  lemma {:induction false} InsertKeepsLowerBound(s: seq<ScoreRecord>, r: ScoreRecord, m: int)
    requires forall i :: 0 <= i < |s| ==> m <= s[i].time
    requires m <= r.time
    ensures forall i :: 0 <= i < |s| + 1 ==> m <= InsertByTime(s, r)[i].time
  {
    if |s| > 0 && r.time >= s[0].time {
      InsertKeepsLowerBound(s[1..], r, m);
    }
  }

  /** A record no slower than every record of a sorted list can go in front of it. */
  lemma SortedCons(x: ScoreRecord, s: seq<ScoreRecord>)
    requires SortedByTime(s)
    requires forall k :: 0 <= k < |s| ==> x.time <= s[k].time
    ensures SortedByTime([x] + s)
  {
    var t := [x] + s;
    forall i, j | 0 <= i < j < |t| ensures t[i].time <= t[j].time {
      assert t[j] == s[j - 1];
      if i > 0 {
        assert t[i] == s[i - 1];
      }
    }
  }

  /** Inserting into a sorted list keeps it sorted. */
  lemma {:induction false} InsertKeepsSorted(s: seq<ScoreRecord>, r: ScoreRecord)
    requires SortedByTime(s)
    ensures SortedByTime(InsertByTime(s, r))
  {
    if |s| == 0 {
      assert InsertByTime(s, r) == [r];
    } else if r.time < s[0].time {
      assert InsertByTime(s, r) == [r] + s;
      SortedCons(r, s);
    } else {
      assert SortedByTime(s[1..]);
      InsertKeepsSorted(s[1..], r);
      InsertKeepsLowerBound(s[1..], r, s[0].time);
      assert InsertByTime(s, r) == [s[0]] + InsertByTime(s[1..], r);
      SortedCons(s[0], InsertByTime(s[1..], r));
    }
  }

  /**
   * `sort((a, b) => a.time - b.time)`: JavaScript's sort is stable, so records of equal
   * time keep their order; this is insertion of each record, front to back.
   */
  function SortByTime(s: seq<ScoreRecord>): (t: seq<ScoreRecord>)
    ensures |t| == |s|
  {
    if |s| == 0 then []
    else InsertByTime(SortByTime(s[..|s| - 1]), s[|s| - 1])
  }

  /** The sort orders the records by time and keeps every one of them. */
  lemma SortByTimeSorts(s: seq<ScoreRecord>)
    ensures SortedByTime(SortByTime(s))
    ensures multiset(SortByTime(s)) == multiset(s)
  {
    SortByTimeOrders(s);
    SortByTimeKeeps(s);
  }

  lemma {:induction false} SortByTimeOrders(s: seq<ScoreRecord>)
    ensures SortedByTime(SortByTime(s))
  {
    if |s| > 0 {
      var init := s[..|s| - 1];
      SortByTimeOrders(init);
      InsertKeepsSorted(SortByTime(init), s[|s| - 1]);
    }
  }

  lemma {:induction false} SortByTimeKeeps(s: seq<ScoreRecord>)
    ensures multiset(SortByTime(s)) == multiset(s)
  {
    if |s| > 0 {
      SortByTimeKeeps(s[..|s| - 1]);
      SortByTimeLastStep(s);
      MultisetOfLast(s);
    }
  }

  /** The last step of the sort inserts the last record into the sorted rest. */
  lemma SortByTimeLastStep(s: seq<ScoreRecord>)
    requires |s| > 0
    ensures multiset(SortByTime(s)) == multiset(SortByTime(s[..|s| - 1])) + multiset{s[|s| - 1]}
  {
    assert SortByTime(s) == InsertByTime(SortByTime(s[..|s| - 1]), s[|s| - 1]);
  }

  /** A non-empty list holds its front and its last record. */
  lemma MultisetOfLast(s: seq<ScoreRecord>)
    requires |s| > 0
    ensures multiset(s) == multiset(s[..|s| - 1]) + multiset{s[|s| - 1]}
  {
    assert s == s[..|s| - 1] + [s[|s| - 1]];
  }

  /** Inserting a record no faster than any in a sorted list appends it. */
  lemma {:induction false} InsertSlowestAppends(s: seq<ScoreRecord>, r: ScoreRecord)
    requires forall i :: 0 <= i < |s| ==> s[i].time <= r.time
    ensures InsertByTime(s, r) == s + [r]
  {
    if |s| > 0 {
      InsertSlowestAppends(s[1..], r);
      assert s == [s[0]] + s[1..];
    }
  }

  /** Sorting an already sorted list changes nothing: the sort is stable. */
  lemma {:induction false} SortSortedIsIdentity(s: seq<ScoreRecord>)
    requires SortedByTime(s)
    ensures SortByTime(s) == s
  {
    if |s| > 0 {
      var init := s[..|s| - 1];
      assert SortedByTime(init);
      SortSortedIsIdentity(init);
      InsertSlowestAppends(init, s[|s| - 1]);
      assert init + [s[|s| - 1]] == s;
    }
  }

  function Min(a: int, b: int): int
  {
    if a <= b then a else b
  }

  /**
   * The list saveScore stores: `[...scores, newScore].sort(byTime).slice(0, 50)`.
   */
  function SavedScores(scores: seq<ScoreRecord>, r: ScoreRecord): (t: seq<ScoreRecord>)
    ensures |t| == Min(MaxScores, |scores| + 1)
  {
    var all := SortByTime(scores + [r]);
    all[..Min(MaxScores, |all|)]
  }

  /** The stored table is sorted by time and holds only records of the old table and the new one. */
  lemma {:induction false} SavedScoresSorted(scores: seq<ScoreRecord>, r: ScoreRecord)
    ensures SortedByTime(SavedScores(scores, r))
    ensures multiset(SavedScores(scores, r)) <= multiset(scores) + multiset{r}
  {
    var all := SortByTime(scores + [r]);
    var t := SavedScores(scores, r);
    SortByTimeSorts(scores + [r]);
    assert all == t + all[|t|..];
  }

  /** Only the fastest records are kept: every record dropped is no faster than any kept. */
  lemma {:induction false} SavedKeepsFastest(scores: seq<ScoreRecord>, r: ScoreRecord, x: ScoreRecord)
    requires x in multiset(scores + [r]) && x !in multiset(SavedScores(scores, r))
    ensures |SavedScores(scores, r)| == MaxScores
    ensures forall y :: y in SavedScores(scores, r) ==> y.time <= x.time
  {
    var all := SortByTime(scores + [r]);
    var t := SavedScores(scores, r);
    assert x in all by {
      SortByTimeKeeps(scores + [r]);
    }
    var k :| 0 <= k < |all| && all[k] == x;
    assert k >= |t| by {
      forall i | 0 <= i < |t| ensures all[i] != x {
        assert all[i] == t[i];
        assert t[i] in multiset(t);
      }
    }
    SortByTimeOrders(scores + [r]);
    forall y | y in t ensures y.time <= x.time {
      var i :| 0 <= i < |t| && t[i] == y;
      assert all[i] == y;
    }
  }

  /**
   * With a sorted table of at least 50 records all no slower than the new one, the stored
   * table is the old first 50: the new record lands after equal times and is cut off.
   */
  lemma {:induction false} SaveIntoFullTableOfFaster(scores: seq<ScoreRecord>, r: ScoreRecord)
    requires SortedByTime(scores) && |scores| >= MaxScores
    requires forall i :: 0 <= i < |scores| ==> scores[i].time <= r.time
    ensures SavedScores(scores, r) == scores[..MaxScores]
  {
    var all := scores + [r];
    assert SortedByTime(all);
    SortSortedIsIdentity(all);
  }

  /** A record saved into a table of fewer than 50 records is kept. */
  lemma {:induction false} SaveIntoShortTableKeeps(scores: seq<ScoreRecord>, r: ScoreRecord)
    requires |scores| < MaxScores
    ensures r in SavedScores(scores, r)
  {
    var all := SortByTime(scores + [r]);
    SortByTimeSorts(scores + [r]);
    assert r in multiset(scores + [r]);
    assert r in multiset(all);
    assert SavedScores(scores, r) == all;
  }

  /** `scores.filter(score => score.mode === mode)`. */
  function ModeScores(s: seq<ScoreRecord>, key: string): (f: seq<ScoreRecord>)
    ensures |f| <= |s|
  {
    if |s| == 0 then []
    else if s[0].mode == key then [s[0]] + ModeScores(s[1..], key)
    else ModeScores(s[1..], key)
  }

  /** The filter keeps exactly the records saved under `key`. */
  lemma {:induction false} ModeScoresMembers(s: seq<ScoreRecord>, key: string)
    ensures forall x :: x in ModeScores(s, key) <==> x in s && x.mode == key
  {
    if |s| > 0 {
      ModeScoresMembers(s[1..], key);
      assert s == [s[0]] + s[1..];
    }
  }

  /**
   * getBestScore: the time of the first record saved under `key`, or null. On a sorted table
   * this is the fastest time for the key.
   */
  function BestScore(s: seq<ScoreRecord>, key: string): Option<int>
  {
    var f := ModeScores(s, key);
    if |f| > 0 then Some(f[0].time) else None
  }

  /**
   * getBestScore answers null exactly when no record has the key, and otherwise the time of
   * the first record that has it.
   */
  lemma {:induction false} BestScoreIsFirstMatch(s: seq<ScoreRecord>, key: string)
    ensures BestScore(s, key).None? <==> forall i :: 0 <= i < |s| ==> s[i].mode != key
    ensures BestScore(s, key).Some? ==>
      exists i :: 0 <= i < |s| && s[i].mode == key && s[i].time == BestScore(s, key).value &&
                  forall j :: 0 <= j < i ==> s[j].mode != key
  {
    FirstOfFilter(s, key);
  }

  lemma {:induction false} FirstOfFilter(s: seq<ScoreRecord>, key: string)
    ensures |ModeScores(s, key)| == 0 <==> forall i :: 0 <= i < |s| ==> s[i].mode != key
    ensures |ModeScores(s, key)| > 0 ==>
      exists i :: 0 <= i < |s| && s[i] == ModeScores(s, key)[0] && s[i].mode == key &&
                  forall j :: 0 <= j < i ==> s[j].mode != key
  {
    if |s| > 0 {
      FirstOfFilter(s[1..], key);
      if s[0].mode != key && |ModeScores(s, key)| > 0 {
        var i :| 0 <= i < |s[1..]| && s[1..][i] == ModeScores(s, key)[0] &&
          s[1..][i].mode == key && forall j :: 0 <= j < i ==> s[1..][j].mode != key;
        assert s[i + 1] == s[1..][i];
        forall j | 0 <= j < i + 1 ensures s[j].mode != key {
          if j > 0 { assert s[j] == s[1..][j - 1]; }
        }
      }
      if |ModeScores(s, key)| == 0 {
        forall i | 0 <= i < |s| ensures s[i].mode != key {
          if i > 0 { assert s[i] == s[1..][i - 1]; }
        }
      }
    }
  }

  /** A table whose first record has the key answers that record's time. */
  lemma {:induction false} FirstRecordIsBest(s: seq<ScoreRecord>, key: string)
    requires |s| > 0 && s[0].mode == key
    ensures BestScore(s, key) == Some(s[0].time)
  {
    BestScoreIsFirstMatch(s, key);
    var best := BestScore(s, key);
    var i :| 0 <= i < |s| && s[i].mode == key && s[i].time == best.value &&
             forall j :: 0 <= j < i ==> s[j].mode != key;
    assert i == 0;
  }

  /** On a sorted table the first record of a key is its fastest. */
  lemma {:induction false} BestIsFastest(s: seq<ScoreRecord>, key: string, k: nat)
    requires SortedByTime(s) && k < |s| && s[k].mode == key
    ensures BestScore(s, key).Some? && BestScore(s, key).value <= s[k].time
  {
    BestScoreIsFirstMatch(s, key);
    var i :| 0 <= i < |s| && s[i].mode == key && s[i].time == BestScore(s, key).value &&
      forall j :: 0 <= j < i ==> s[j].mode != key;
    assert i <= k;
  }

  /**
   * `!bestScore || currentTime < bestScore`: JavaScript treats a best of 0 like no best.
   */
  function NewRecordFlag(currentTime: int, best: Option<int>): bool
  {
    best.None? || best.value == 0 || currentTime < best.value
  }

  /**
   * The flag is computed after saveScore, so when the new record survived the cut its own key
   * has a best no slower than it, and the flag is raised only when that best is 0.
   */
  lemma {:induction false} NewRecordAfterSave(scores: seq<ScoreRecord>, r: ScoreRecord)
    requires r in SavedScores(scores, r)
    ensures BestScore(SavedScores(scores, r), r.mode).Some?
    ensures BestScore(SavedScores(scores, r), r.mode).value <= r.time
    ensures NewRecordFlag(r.time, BestScore(SavedScores(scores, r), r.mode)) <==>
      BestScore(SavedScores(scores, r), r.mode).value == 0
  {
    var t := SavedScores(scores, r);
    SavedScoresSorted(scores, r);
    var k :| 0 <= k < |t| && t[k] == r;
    BestIsFastest(t, r.mode, k);
  }

  /**
   * When a key had no record and its new record survived the cut, that record's time is the
   * key's best after the save.
   */
  lemma {:induction false} SavedFirstOfKeyIsBest(scores: seq<ScoreRecord>, r: ScoreRecord)
    requires BestScore(scores, r.mode).None?
    requires r in SavedScores(scores, r)
    ensures BestScore(SavedScores(scores, r), r.mode) == Some(r.time)
  {
    var t := SavedScores(scores, r);
    BestScoreIsFirstMatch(scores, r.mode);
    BestScoreIsFirstMatch(t, r.mode);
    SavedScoresSorted(scores, r);
    var i :| 0 <= i < |t| && t[i].mode == r.mode && t[i].time == BestScore(t, r.mode).value &&
      forall j :: 0 <= j < i ==> t[j].mode != r.mode;
    assert t[i] in multiset(scores) + multiset{r};
  }

  /**
   * The flag as evidently intended: compared against the key's best from the table as it was
   * before this game's record was saved.
   */
  function NewRecordBeforeSave(scores: seq<ScoreRecord>, r: ScoreRecord): bool
  {
    NewRecordFlag(r.time, BestScore(scores, r.mode))
  }

  /**
   * On a sorted table with no time of 0 under the key, the intended flag is raised exactly when
   * the new time beats every earlier record of its key, and always for a key's first game.
   */
  lemma {:induction false} NewRecordBeforeSaveIsFastest(scores: seq<ScoreRecord>, r: ScoreRecord)
    requires SortedByTime(scores)
    requires forall i :: 0 <= i < |scores| && scores[i].mode == r.mode ==> scores[i].time != 0
    ensures NewRecordBeforeSave(scores, r) <==>
      forall i :: 0 <= i < |scores| && scores[i].mode == r.mode ==> r.time < scores[i].time
  {
    BestScoreIsFirstMatch(scores, r.mode);
    var best := BestScore(scores, r.mode);
    if best.Some? {
      var k :| 0 <= k < |scores| && scores[k].mode == r.mode && scores[k].time == best.value &&
        forall j :: 0 <= j < k ==> scores[j].mode != r.mode;
      forall i | 0 <= i < |scores| && scores[i].mode == r.mode ensures best.value <= scores[i].time {
        BestIsFastest(scores, r.mode, i);
      }
    }
  }

  /**
   * The first game of a key, as written: the record is saved first and then is its key's best,
   * so a time no better than itself is not a new record; from the table before the save it is.
   */
  lemma FirstGameNotNewRecord(r: ScoreRecord)
    requires r.time != 0
    ensures SavedScores([], r) == [r]
    ensures !NewRecordFlag(r.time, BestScore(SavedScores([], r), r.mode))
    ensures NewRecordBeforeSave([], r)
  {
    assert SortByTime([r]) == InsertByTime([], r);
    FirstRecordIsBest([r], r.mode);
    BestScoreIsFirstMatch([], r.mode);
  }

  /**
   * The component's `parseFloat(((end - start) / 1000).toFixed(2))` in milliseconds: the time
   * rounded to the nearest hundredth of a second, a half rounded away from zero.
   */
  function ShownTime(ms: int): (r: int)
    ensures r % 10 == 0
    ensures ms >= 0 ==> ms - 5 < r <= ms + 5
    ensures ms < 0 ==> ms - 5 <= r < ms + 5
  {
    if ms >= 0 then (ms + 5) / 10 * 10 else -((5 - ms) / 10 * 10)
  }

  /** A positive time is shown below itself exactly when its last digit is 1 to 4. */
  lemma ShownTimeRoundsDown(ms: int)
    requires ms > 0
    ensures ShownTime(ms) < ms <==> 1 <= ms % 10 <= 4
  {
  }

  /**
   * The component's finish screen: `!bestScore || currentTime < bestScore` with the time
   * rounded to hundredths and the best as it was stored.
   */
  function PageNewRecordFlag(elapsed: int, best: Option<int>): bool
  {
    NewRecordFlag(ShownTime(elapsed), best)
  }

  /**
   * The component's flag after the save: the saved time is its key's best or slower, so the
   * flag needs a best of 0 or a time rounded below itself; for a key's first game it is
   * raised exactly when rounding took the time down (5234 ms is flagged, 5000 ms and 5236 ms
   * are not).
   */
  lemma {:induction false} PageFlagAfterSave(scores: seq<ScoreRecord>, r: ScoreRecord)
    requires r in SavedScores(scores, r)
    ensures var best := BestScore(SavedScores(scores, r), r.mode);
      best.Some? && best.value <= r.time &&
      (PageNewRecordFlag(r.time, best) && best.value != 0 ==> ShownTime(r.time) < r.time) &&
      (BestScore(scores, r.mode).None? && r.time > 0 ==>
        (PageNewRecordFlag(r.time, best) <==> 1 <= r.time % 10 <= 4))
  {
    NewRecordAfterSave(scores, r);
    if BestScore(scores, r.mode).None? && r.time > 0 {
      SavedFirstOfKeyIsBest(scores, r);
      ShownTimeRoundsDown(r.time);
    }
  }

  /**
   * In the component a slower time can be shown as a new record: after a best of 5232 ms,
   * a game of 5234 ms is rounded to 5230 ms and compared with the stored 5232 ms, although
   * the table before the save says it is no record.
   */
  lemma PageFlagsSlowerTime(key: string, day: string)
    ensures var before := [ScoreRecord(key, 5232, day)];
      var r := ScoreRecord(key, 5234, day);
      SavedScores(before, r) == before + [r] &&
      PageNewRecordFlag(r.time, BestScore(SavedScores(before, r), key)) &&
      !NewRecordBeforeSave(before, r)
  {
    var before := [ScoreRecord(key, 5232, day)];
    var r := ScoreRecord(key, 5234, day);
    assert SortByTime(before + [r]) == before + [r] by {
      assert InsertByTime([], before[0]) == before;
      assert SortByTime(before) == before;
      assert InsertByTime(before, r) == before + [r];
    }
    FirstRecordIsBest(before + [r], key);
    FirstRecordIsBest(before, key);
  }

  /**
   * Saving under one key never gives another key a best it did not have before: every record
   * of that key in the new table was already in the old one.
   */
  lemma {:induction false} SaveDoesNotTouchOtherKeys(scores: seq<ScoreRecord>, r: ScoreRecord, key: string)
    requires r.mode != key
    ensures forall x :: x in SavedScores(scores, r) && x.mode == key ==> x in scores
    ensures BestScore(SavedScores(scores, r), key).Some? ==>
      exists x :: x in scores && x.mode == key && x.time == BestScore(SavedScores(scores, r), key).value
  {
    var t := SavedScores(scores, r);
    SavedScoresSorted(scores, r);
    forall x | x in t && x.mode == key ensures x in scores {
      assert x in multiset(t);
      assert x in multiset(scores) + multiset{r};
    }
    BestScoreIsFirstMatch(t, key);
    if BestScore(t, key).Some? {
      var i :| 0 <= i < |t| && t[i].mode == key && t[i].time == BestScore(t, key).value &&
        forall j :: 0 <= j < i ==> t[j].mode != key;
      assert t[i] in t;
    }
  }

  /** A table kept sorted by saveScore: saving is inserting the new record, then the cut. */
  lemma {:induction false} SaveIntoSorted(scores: seq<ScoreRecord>, r: ScoreRecord)
    requires SortedByTime(scores)
    ensures SavedScores(scores, r) == InsertByTime(scores, r)[..Min(MaxScores, |scores| + 1)]
  {
    var all := scores + [r];
    assert all[..|all| - 1] == scores;
    SortSortedIsIdentity(scores);
  }

  /** A record faster than every saved one becomes the table's first. */
  lemma {:induction false} SaveFastestGoesFirst(scores: seq<ScoreRecord>, r: ScoreRecord)
    requires SortedByTime(scores)
    requires forall i :: 0 <= i < |scores| ==> r.time < scores[i].time
    ensures SavedScores(scores, r)[0] == r
  {
    SaveIntoSorted(scores, r);
  }

  /** A record not faster than the saved first one leaves the first in place. */
  lemma {:induction false} SaveSlowerKeepsFirst(scores: seq<ScoreRecord>, r: ScoreRecord)
    requires SortedByTime(scores) && |scores| > 0 && scores[0].time <= r.time
    ensures SavedScores(scores, r)[0] == scores[0]
  {
    SaveIntoSorted(scores, r);
  }

  /** Saving 5.00 s, 3.00 s and 8.00 s under one key leaves 3.00 s as its best. */
  lemma BestOfThree(a: ScoreRecord, b: ScoreRecord, c: ScoreRecord)
    requires a.mode == b.mode == c.mode
    requires a.time == 5000 && b.time == 3000 && c.time == 8000
    ensures BestScore(SavedScores(SavedScores(SavedScores([], a), b), c), a.mode) == Some(3000)
  {
    var s1 := SavedScores([], a);
    SaveFastestGoesFirst([], a);
    SaveFastestGoesFirst(s1, b);
    var s2 := SavedScores(s1, b);
    SavedScoresSorted(s1, b);
    SaveSlowerKeepsFirst(s2, c);
    FirstRecordIsBest(SavedScores(s2, c), a.mode);
  }
}
