/**
 Degree of agreement (the pairwise part of evaluation).

 Over all pairs i < j of a test set, a pair is skipped when both the true
 and the predicted values tie; every other pair is counted in n, and it is
 also counted in correctNum when the true order and the predicted order
 agree strictly. With no counted pair the result is the sentinel -1;
 otherwise it is correctNum / n. Labels are only compared, so they are
 exact reals here.
 */
module Agreement {

  type Label = real

  /** Both the true and the predicted values of the pair tie: the pair is skipped. */
  predicate Tied(testY: seq<Label>, predY: seq<Label>, i: nat, j: nat)
    requires i < |testY| && j < |testY| && |predY| == |testY|
  {
    testY[i] == testY[j] && predY[i] == predY[j]
  }

  /** The predicted order of the pair agrees strictly with its true order. */
  predicate Concordant(testY: seq<Label>, predY: seq<Label>, i: nat, j: nat)
    requires i < |testY| && j < |testY| && |predY| == |testY|
  {
    || (testY[i] > testY[j] && predY[i] > predY[j])
    || (testY[i] < testY[j] && predY[i] < predY[j])
  }

  /** All pairs a < b < len. */
  ghost function AllPairs(len: nat): set<(int, int)>
  {
    set a, b | 0 <= a < b < len :: (a, b)
  }

  /** The pairs that count towards n: those not tied on both sides. */
  ghost function CountedPairs(testY: seq<Label>, predY: seq<Label>): set<(int, int)>
    requires |predY| == |testY|
  {
    set a, b | 0 <= a < b < |testY| && !Tied(testY, predY, a, b) :: (a, b)
  }

  /** The pairs that count towards correctNum: those whose orders agree. */
  ghost function CorrectPairs(testY: seq<Label>, predY: seq<Label>): set<(int, int)>
    requires |predY| == |testY|
  {
    set a, b | 0 <= a < b < |testY| && Concordant(testY, predY, a, b) :: (a, b)
  }

  /** The metric: -1 when no pair counts, otherwise the share of counted pairs that agree. */
  ghost function Doa(testY: seq<Label>, predY: seq<Label>): real
    requires |predY| == |testY|
  {
    var n := |CountedPairs(testY, predY)|;
    if n == 0 then -1.0 else |CorrectPairs(testY, predY)| as real / n as real
  }

  /** What a counter counts: the pairs that are not tied (n), or the pairs that agree (correctNum). */
  predicate Hit(testY: seq<Label>, predY: seq<Label>, a: nat, b: nat, agreeing: bool)
    requires a < |testY| && b < |testY| && |predY| == |testY|
  {
    if agreeing then Concordant(testY, predY, a, b) else !Tied(testY, predY, a, b)
  }

  /** How much a counter grows over row i, for columns i + 1 .. j - 1. */
  function RowCount(testY: seq<Label>, predY: seq<Label>, i: nat, j: nat, agreeing: bool): nat
    requires |predY| == |testY| && i < |testY| && j <= |testY|
  {
    if j <= i + 1 then 0
    else RowCount(testY, predY, i, j - 1, agreeing) + if Hit(testY, predY, i, j - 1, agreeing) then 1 else 0
  }

  /** How much a counter grows over rows 0 .. i - 1. */
  function RowsCount(testY: seq<Label>, predY: seq<Label>, i: nat, agreeing: bool): nat
    requires |predY| == |testY| && i <= |testY|
  {
    if i == 0 then 0
    else RowsCount(testY, predY, i - 1, agreeing) + RowCount(testY, predY, i - 1, |testY|, agreeing)
  }

  /** The pairs of row i, columns i + 1 .. j - 1, that a counter counts. */
  ghost function RowPairs(testY: seq<Label>, predY: seq<Label>, i: nat, j: nat, agreeing: bool): set<(int, int)>
    requires |predY| == |testY| && i < |testY| && j <= |testY|
  {
    set b | i < b < j && Hit(testY, predY, i, b, agreeing) :: (i, b)
  }

  /** The pairs of rows 0 .. i - 1 that a counter counts. */
  ghost function RowsPairs(testY: seq<Label>, predY: seq<Label>, i: nat, agreeing: bool): set<(int, int)>
    requires |predY| == |testY| && i <= |testY|
  {
    set a, b | 0 <= a < b < |testY| && a < i && Hit(testY, predY, a, b, agreeing) :: (a, b)
  }

  lemma {:induction false} RowCountSize(testY: seq<Label>, predY: seq<Label>, i: nat, j: nat, agreeing: bool)
    requires |predY| == |testY| && i < |testY| && j <= |testY|
    ensures RowCount(testY, predY, i, j, agreeing) == |RowPairs(testY, predY, i, j, agreeing)|
  {
    if j <= i + 1 {
      assert RowPairs(testY, predY, i, j, agreeing) == {};
    } else {
      RowCountSize(testY, predY, i, j - 1, agreeing);
      var prev := RowPairs(testY, predY, i, j - 1, agreeing);
      if Hit(testY, predY, i, j - 1, agreeing) {
        assert RowPairs(testY, predY, i, j, agreeing) == prev + {(i, j - 1)};
      } else {
        assert RowPairs(testY, predY, i, j, agreeing) == prev;
      }
    }
  }

  lemma {:induction false} RowsCountSize(testY: seq<Label>, predY: seq<Label>, i: nat, agreeing: bool)
    requires |predY| == |testY| && i <= |testY|
    ensures RowsCount(testY, predY, i, agreeing) == |RowsPairs(testY, predY, i, agreeing)|
  {
    if i == 0 {
      assert RowsPairs(testY, predY, i, agreeing) == {};
    } else {
      RowsCountSize(testY, predY, i - 1, agreeing);
      RowCountSize(testY, predY, i - 1, |testY|, agreeing);
      RowsPairsStep(testY, predY, i - 1, agreeing);
    }
  }

  /** Row i's pairs extend the pairs of the earlier rows, and share none with them. */
  lemma RowsPairsStep(testY: seq<Label>, predY: seq<Label>, i: nat, agreeing: bool)
    requires |predY| == |testY| && i < |testY|
    ensures RowsPairs(testY, predY, i + 1, agreeing)
         == RowsPairs(testY, predY, i, agreeing) + RowPairs(testY, predY, i, |testY|, agreeing)
    ensures RowsPairs(testY, predY, i, agreeing) !! RowPairs(testY, predY, i, |testY|, agreeing)
  {
  }

  /** Over all rows, the counters reach the sizes of the counted and the agreeing pair sets. */
  lemma LoopCounts(testY: seq<Label>, predY: seq<Label>)
    requires |predY| == |testY|
    ensures RowsCount(testY, predY, |testY|, false) == |CountedPairs(testY, predY)|
    ensures RowsCount(testY, predY, |testY|, true) == |CorrectPairs(testY, predY)|
  {
    RowsCountSize(testY, predY, |testY|, false);
    RowsCountSize(testY, predY, |testY|, true);
    assert RowsPairs(testY, predY, |testY|, false) == CountedPairs(testY, predY);
    assert RowsPairs(testY, predY, |testY|, true) == CorrectPairs(testY, predY);
  }

  /** No two entries are equal. */
  predicate Distinct(s: seq<Label>)
  {
    forall i, j :: 0 <= i < j < |s| ==> s[i] != s[j]
  }

  /** A subset is no larger than its superset. */
  lemma SubsetSize(a: set<(int, int)>, b: set<(int, int)>)
    requires a <= b
    ensures |a| <= |b|
  {
    assert b == a + (b - a);
  }

  /** The pairs (a, c) with a < m. */
  ghost function Column(c: int, m: nat): set<(int, int)>
  {
    set a | 0 <= a < m :: (a, c)
  }

  lemma {:induction false} ColumnSize(c: int, m: nat)
    ensures |Column(c, m)| == m
  {
    if m > 0 {
      ColumnSize(c, m - 1);
      assert Column(c, m) == Column(c, m - 1) + {(m - 1, c)};
    }
  }

  /** Allowing one more index adds one pair per smaller index. */
  lemma AllPairsGrow(l: nat)
    ensures |AllPairs(l + 1)| == |AllPairs(l)| + l
  {
    assert AllPairs(l + 1) == AllPairs(l) + Column(l, l);
    assert AllPairs(l) !! Column(l, l);
    ColumnSize(l, l);
  }

  /** There are len * (len - 1) / 2 pairs a < b < len. */
  lemma {:induction false} AllPairsSize(len: nat)
    ensures |AllPairs(len)| == len * (len - 1) / 2
  {
    DoubleAllPairsSize(len);
  }

  lemma {:induction false} DoubleAllPairsSize(len: nat)
    ensures 2 * |AllPairs(len)| == len * (len - 1)
  {
    if len > 0 {
      var l := len - 1;
      DoubleAllPairsSize(l);
      AllPairsGrow(l);
      assert len * (len - 1) == l * (l - 1) + 2 * l;
    }
  }

  /** A share of at most the whole lies in [0, 1]. */
  lemma RatioBounds(c: nat, n: nat)
    requires c <= n && n > 0
    ensures 0.0 <= c as real / n as real <= 1.0
  {
    var q := c as real / n as real;
    assert q * n as real == c as real;
  }

  /**
   The counters are bounded: 0 <= correctNum <= n <= len * (len - 1) / 2, and
   the metric is the sentinel -1 or a share in [0, 1].
   */
  lemma DoaBounds(testY: seq<Label>, predY: seq<Label>)
    requires |predY| == |testY|
    ensures |CorrectPairs(testY, predY)| <= |CountedPairs(testY, predY)| <= |testY| * (|testY| - 1) / 2
    ensures Doa(testY, predY) == -1.0 || 0.0 <= Doa(testY, predY) <= 1.0
  {
    SubsetSize(CorrectPairs(testY, predY), CountedPairs(testY, predY));
    SubsetSize(CountedPairs(testY, predY), AllPairs(|testY|));
    AllPairsSize(|testY|);
    var c, n := |CorrectPairs(testY, predY)|, |CountedPairs(testY, predY)|;
    if n > 0 {
      RatioBounds(c, n);
    }
  }

  /** No pair counts exactly when every pair ties on both sides; in particular for fewer than two values. */
  lemma SentinelCases(testY: seq<Label>, predY: seq<Label>)
    requires |predY| == |testY|
    ensures Doa(testY, predY) == -1.0 <==>
      forall i, j :: 0 <= i < j < |testY| ==> Tied(testY, predY, i, j)
    ensures |testY| < 2 ==> Doa(testY, predY) == -1.0
  {
    var counted := CountedPairs(testY, predY);
    if |counted| != 0 {
      var x :| x in counted;
      assert !Tied(testY, predY, x.0, x.1);
      DoaBounds(testY, predY);
    } else {
      forall i, j | 0 <= i < j < |testY| ensures Tied(testY, predY, i, j) {
        assert (i, j) !in counted;
      }
    }
  }

  /** Predicting the true values, all distinct: every pair counts and agrees. */
  lemma PerfectPrediction(testY: seq<Label>)
    requires Distinct(testY)
    ensures |CorrectPairs(testY, testY)| == |CountedPairs(testY, testY)| == |testY| * (|testY| - 1) / 2
    ensures |testY| >= 2 ==> Doa(testY, testY) == 1.0
  {
    assert CountedPairs(testY, testY) == AllPairs(|testY|);
    assert CorrectPairs(testY, testY) == AllPairs(|testY|);
    AllPairsSize(|testY|);
    if |testY| >= 2 {
      assert (0, 1) in AllPairs(|testY|);
      var n := |AllPairs(|testY|)| as real;
      assert n > 0.0 && n / n == 1.0;
    }
  }

  /** All true values tie and the predictions are distinct: every pair counts, none agrees. */
  lemma TiedTruth(testY: seq<Label>, predY: seq<Label>)
    requires |predY| == |testY| && Distinct(predY)
    requires forall i :: 0 <= i < |testY| ==> testY[i] == testY[0]
    ensures |CorrectPairs(testY, predY)| == 0
    ensures |CountedPairs(testY, predY)| == |testY| * (|testY| - 1) / 2
    ensures |testY| >= 2 ==> Doa(testY, predY) == 0.0
  {
    assert CountedPairs(testY, predY) == AllPairs(|testY|);
    assert CorrectPairs(testY, predY) == {};
    AllPairsSize(|testY|);
    if |testY| >= 2 {
      assert (0, 1) in AllPairs(|testY|);
    }
  }

  /** The predictions after a transform f. */
  function Transform(f: Label -> Label, predY: seq<Label>): (r: seq<Label>)
    ensures |r| == |predY|
    ensures forall k :: 0 <= k < |predY| ==> r[k] == f(predY[k])
  {
    seq(|predY|, k requires 0 <= k < |predY| => f(predY[k]))
  }

  /** Only the relative order of the predictions matters: a strictly increasing transform keeps both counts. */
  lemma MonotoneInvariance(testY: seq<Label>, predY: seq<Label>, f: Label -> Label)
    requires |predY| == |testY|
    requires forall x, y :: x < y ==> f(x) < f(y)
    ensures CountedPairs(testY, Transform(f, predY)) == CountedPairs(testY, predY)
    ensures CorrectPairs(testY, Transform(f, predY)) == CorrectPairs(testY, predY)
    ensures Doa(testY, Transform(f, predY)) == Doa(testY, predY)
  {
    var q := Transform(f, predY);
    forall a, b | 0 <= a < b < |testY|
      ensures Tied(testY, q, a, b) == Tied(testY, predY, a, b)
      ensures Concordant(testY, q, a, b) == Concordant(testY, predY, a, b)
    {
      assert q[a] == f(predY[a]) && q[b] == f(predY[b]);
    }
  }

  /** Predictions that are a strictly increasing function of distinct true values score 1. */
  lemma OrderPreservingPrediction(testY: seq<Label>, f: Label -> Label)
    requires Distinct(testY) && |testY| >= 2
    requires forall x, y :: x < y ==> f(x) < f(y)
    ensures Doa(testY, Transform(f, testY)) == 1.0
  {
    MonotoneInvariance(testY, testY, f);
    PerfectPrediction(testY);
  }

  /** Three small test sets: a perfect ranking, a tied truth, and the empty set. */
  lemma Scenarios()
    ensures |CountedPairs([1.0, 2.0, 3.0], [1.0, 2.0, 3.0])| == 3
    ensures |CorrectPairs([1.0, 2.0, 3.0], [1.0, 2.0, 3.0])| == 3
    ensures Doa([1.0, 2.0, 3.0], [1.0, 2.0, 3.0]) == 1.0
    ensures |CountedPairs([1.0, 1.0, 1.0], [1.0, 2.0, 3.0])| == 3
    ensures |CorrectPairs([1.0, 1.0, 1.0], [1.0, 2.0, 3.0])| == 0
    ensures Doa([1.0, 1.0, 1.0], [1.0, 2.0, 3.0]) == 0.0
    ensures Doa([], []) == -1.0
  {
    PerfectPrediction([1.0, 2.0, 3.0]);
    TiedTruth([1.0, 1.0, 1.0], [1.0, 2.0, 3.0]);
    SentinelCases([], []);
  }

  /**
   The DOA loop: counts n and correctNum over all pairs i < j, then divides,
   or returns the sentinel -1 when no pair counted.
   */
  method Evaluation(testY: seq<Label>, predY: seq<Label>) returns (doa: real)
    requires |predY| == |testY|
    ensures doa == Doa(testY, predY)
    ensures doa == -1.0 || 0.0 <= doa <= 1.0
  {
    var n := 0;
    var correctNum := 0;
    var i := 0;
    while i < |testY| - 1
      invariant 0 <= i <= if |testY| < 1 then 0 else |testY| - 1
      invariant n == RowsCount(testY, predY, i, false)
      invariant correctNum == RowsCount(testY, predY, i, true)
    {
      var j := i + 1;
      while j < |testY|
        invariant i + 1 <= j <= |testY|
        invariant n == RowsCount(testY, predY, i, false) + RowCount(testY, predY, i, j, false)
        invariant correctNum == RowsCount(testY, predY, i, true) + RowCount(testY, predY, i, j, true)
      {
        if testY[i] > testY[j] && predY[i] > predY[j] {
          correctNum := correctNum + 1;
        } else if testY[i] == testY[j] && predY[i] == predY[j] {
          j := j + 1;
          continue;
        } else if testY[i] < testY[j] && predY[i] < predY[j] {
          correctNum := correctNum + 1;
        }
        n := n + 1;
        j := j + 1;
      }
      i := i + 1;
    }
    if |testY| > 0 {
      assert RowsCount(testY, predY, |testY|, false) == n;
      assert RowsCount(testY, predY, |testY|, true) == correctNum;
    }
    LoopCounts(testY, predY);
    DoaBounds(testY, predY);
    if n == 0 {
      return -1.0;
    }
    doa := correctNum as real / n as real;
  }
}
