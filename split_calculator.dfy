/** The split calculator of App.jsx: the average pace for a target time over a
    distance, and one cumulative split per whole kilometre, each the unrounded
    average pace times the kilometre number. */
module SplitCalculator {
  import opened JsMath
  import opened TimeCodec

  /** One row of the splits table: a kilometre mark and the formatted cumulative time. */
  datatype Split = Split(km: int, time: string)

  /** pacePerKm: seconds per kilometre, unrounded. */
  function AveragePace(totalSeconds: int, distance: real): (pace: real)
    requires distance > 0.0
    ensures pace * distance == totalSeconds as real
    ensures totalSeconds >= 0 ==> pace >= 0.0
  {
    totalSeconds as real / distance
  }

  /** The seconds behind the split at kilometre i: pacePerKm * i. */
  function SplitSeconds(totalSeconds: int, distance: real, i: int): (t: real)
    requires distance > 0.0
    ensures t * distance == (totalSeconds * i) as real
    ensures totalSeconds >= 0 && i >= 0 ==> t >= 0.0
  {
    var pace := AveragePace(totalSeconds, distance);
    assert pace * i as real * distance == pace * distance * i as real;
    assert totalSeconds >= 0 && i >= 0 ==> pace * i as real >= 0.0 by {
      if totalSeconds >= 0 && i >= 0 {
        MulNonNegative(pace, i as real);
      }
    }
    pace * i as real
  }

  lemma MulNonNegative(a: real, b: real)
    requires a >= 0.0 && b >= 0.0
    ensures a * b >= 0.0
  {
  }

  /** The loop that builds the splits table: one row per whole kilometre
      1..floor(distance), the trailing part kilometre omitted. */
  method ComputeSplits(totalSeconds: int, distance: real) returns (splits: seq<Split>)
    requires distance > 0.0 && totalSeconds >= 0
    ensures |splits| == distance.Floor
    ensures forall k :: 0 <= k < |splits| ==> splits[k].km == k + 1
    ensures forall k :: 0 <= k < |splits| ==>
              splits[k].time == FormatTime(SplitSeconds(totalSeconds, distance, k + 1))
  {
    var pacePerKm := totalSeconds as real / distance;
    splits := [];
    var i := 1;
    while i <= distance.Floor
      invariant 1 <= i <= distance.Floor + 1
      invariant |splits| == i - 1
      invariant forall k :: 0 <= k < |splits| ==> splits[k].km == k + 1
      invariant forall k :: 0 <= k < |splits| ==>
                  splits[k].time == FormatTime(SplitSeconds(totalSeconds, distance, k + 1))
    {
      assert pacePerKm * i as real == SplitSeconds(totalSeconds, distance, i);
      splits := splits + [Split(i, FormatTime(pacePerKm * i as real))];
      i := i + 1;
    }
  }

  /** Each split is the same pace further on than the one before: the splits
      are exact multiples of the pace, not a running sum of rounded deltas. */
  lemma SplitStep(totalSeconds: int, distance: real, i: int)
    requires distance > 0.0
    ensures SplitSeconds(totalSeconds, distance, i + 1)
            == SplitSeconds(totalSeconds, distance, i) + AveragePace(totalSeconds, distance)
  {
  }

  /** For a non-negative target, later splits are never earlier, both as exact
      seconds and as the displayed hours, minutes and seconds. */
  lemma SplitsMonotone(totalSeconds: int, distance: real, i: int, j: int)
    requires distance > 0.0 && totalSeconds >= 0 && 0 <= i <= j
    ensures SplitSeconds(totalSeconds, distance, i) <= SplitSeconds(totalSeconds, distance, j)
    ensures TimeToSeconds(Components(SplitSeconds(totalSeconds, distance, i)))
            <= TimeToSeconds(Components(SplitSeconds(totalSeconds, distance, j)))
  {
    var x := SplitSeconds(totalSeconds, distance, i);
    var y := SplitSeconds(totalSeconds, distance, j);
    ExactSplitsMonotone(AveragePace(totalSeconds, distance), i, j);
    ShownMonotone(x, y);
  }

  lemma ExactSplitsMonotone(pace: real, i: int, j: int)
    requires pace >= 0.0 && i <= j
    ensures pace * i as real <= pace * j as real
  {
    assert pace * j as real == pace * i as real + pace * (j - i) as real;
    MulNonNegative(pace, (j - i) as real);
  }

  /** The displayed split never drifts: it is the exact proportional time
      totalSeconds * i / distance rounded to the nearest second. */
  lemma SplitNoDrift(totalSeconds: int, distance: real, i: int)
    requires distance > 0.0 && totalSeconds >= 0 && i >= 0
    ensures var shown := TimeToSeconds(Components(SplitSeconds(totalSeconds, distance, i))) as real;
            var exact := (totalSeconds * i) as real / distance;
            shown - 0.5 <= exact < shown + 0.5
  {
    var x := SplitSeconds(totalSeconds, distance, i);
    assert x == (totalSeconds * i) as real / distance;
    ComponentsTotal(x);
  }

  /** When the distance is a whole number of kilometres, the last split is the
      target time itself. */
  lemma LastSplitIsTarget(totalSeconds: int, n: int)
    requires n >= 1
    ensures SplitSeconds(totalSeconds, n as real, n) == totalSeconds as real
  {
  }

  /** The calculator's default form, 10 km in 0:50:00, averages 5:00/km and
      reaches the 10 km mark at 50:00. */
  lemma DefaultFormExample()
    ensures AveragePace(3000, 10.0) == 300.0
    ensures FormatTime(AveragePace(3000, 10.0)) == "5:00"
    ensures FormatTime(SplitSeconds(3000, 10.0, 10)) == "50:00"
  {
    ComponentsOfTime(Time(0, 5, 0));
    ComponentsOfTime(Time(0, 50, 0));
    assert Components(300.0) == Time(0, 5, 0);
    assert Components(3000.0) == Time(0, 50, 0);
    assert Text.Show(5) == "5" && Text.Show(50) == "50" && Text.Pad2(0) == "00";
  }

  /** 50:00 over 10.7 km: the table has ten rows, for kilometres 1 to 10, and
      the part kilometre after the tenth has no row. */
  method PartKilometreTable() returns (splits: seq<Split>)
    ensures |splits| == 10
    ensures forall k :: 0 <= k < |splits| ==> splits[k].km == k + 1
  {
    splits := ComputeSplits(3000, 10.7);
  }
}
