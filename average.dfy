// The direction part of WeatherMeters::getTwoMinuteWindAverage: an "unwrapping"
// fold over the 120 samples, a truncating division and one re-normalisation.
// AverageDirection is the code as written; FixedAverageDirection is the
// evidently intended average (see README, Findings).
module WindAverage {
  import opened Readings

  datatype Option<T> = None | Some(value: T)

  /** The loop's accumulators: the running unwrapped angle d, directionSum and numberOfSamples. */
  datatype Accum = Accum(d: int, sum: int, count: nat)

  /** A slot counts in the average unless its angle is the -1 marker; for mapper angles, exactly the compass angles count. */
  predicate IsValid(w: WindReading): (b: bool)
    ensures var a := w.direction.angle; (a == -1 || 0 <= a < 360) ==> (b <==> 0 <= a < 360)
  {
    w.direction.angle != -1
  }

  /**
   * One unwrapping step: move d by the delta to the new angle, shifted by 360
   * when the delta is beyond +-180. The new d is the sample's own angle, one turn
   * above it, or one turn below it.
   */
  function Unwrap(d: int, angle: int): (d': int)
    ensures d' == angle || d' == angle + 360 || d' == angle - 360
    ensures angle - d < -180 ==> d' == angle + 360
    ensures angle - d > 180 ==> d' == angle - 360
    ensures -180 <= angle - d <= 180 ==> d' == angle
  {
    var delta := angle - d;
    if delta < -180 then d + delta + 360
    else if delta > 180 then d + delta - 360
    else d + delta
  }

  /** The loop body for one slot: invalid slots are skipped and not counted. */
  function Step(acc: Accum, w: WindReading): (r: Accum)
    ensures !IsValid(w) ==> r == acc
    ensures IsValid(w) ==> r.count == acc.count + 1 && r.sum == acc.sum + r.d
    ensures IsValid(w) ==> r.d == Unwrap(acc.d, w.direction.angle)
  {
    if !IsValid(w) then acc
    else
      var d := Unwrap(acc.d, w.direction.angle);
      Accum(d, acc.sum + d, acc.count + 1)
  }

  /** The loop over a run of slots, in index order. */
  function Fold(acc: Accum, s: seq<WindReading>): (r: Accum)
    ensures acc.count <= r.count <= acc.count + |s|
  {
    if s == [] then acc else Step(Fold(acc, s[..|s| - 1]), s[|s| - 1])
  }

  function CountValid(s: seq<WindReading>): nat
  {
    if s == [] then 0 else CountValid(s[..|s| - 1]) + (if IsValid(s[|s| - 1]) then 1 else 0)
  }

  /** numberOfSamples counts exactly the slots whose angle is not -1. */
  lemma {:induction false} FoldCount(acc: Accum, s: seq<WindReading>)
    ensures Fold(acc, s).count == acc.count + CountValid(s)
  {
    if s != [] {
      FoldCount(acc, s[..|s| - 1]);
    }
  }

  lemma {:induction false} FoldConcat(acc: Accum, a: seq<WindReading>, b: seq<WindReading>)
    ensures Fold(acc, a + b) == Fold(Fold(acc, a), b)
    decreases |b|
  {
    if b == [] {
      assert a + b == a;
    } else {
      assert (a + b)[..|a + b| - 1] == a + b[..|b| - 1];
      FoldConcat(acc, a, b[..|b| - 1]);
    }
  }

  lemma {:induction false} FoldSkipsInvalid(acc: Accum, s: seq<WindReading>)
    requires forall i :: 0 <= i < |s| ==> !IsValid(s[i])
    ensures Fold(acc, s) == acc
  {
    if s != [] {
      FoldSkipsInvalid(acc, s[..|s| - 1]);
    }
  }

  /** The last valid slot decides d: after the fold, d is within one turn of that slot's angle. */
  lemma {:induction false} FoldTracksLastValid(acc: Accum, s: seq<WindReading>, k: nat)
    requires k < |s| && IsValid(s[k])
    requires forall i :: k < i < |s| ==> !IsValid(s[i])
    ensures var a := s[k].direction.angle;
      Fold(acc, s).d in {a, a + 360, a - 360}
  {
    if k < |s| - 1 {
      FoldTracksLastValid(acc, s[..|s| - 1], k);
    }
  }

  /** C's `/` on ints: the quotient is truncated toward zero. */
  function TruncDiv(a: int, b: int): (q: int)
    requires b > 0
    ensures (a >= 0 ==> q >= 0) && (a <= 0 ==> q <= 0)
    ensures (if q >= 0 then q else -q) == (if a >= 0 then a else -a) / b
  {
    if a >= 0 then a / b else -((-a) / b)
  }

  lemma DivBracket(a: nat, b: int)
    requires b > 0
    ensures (a / b) * b <= a < (a / b) * b + b
  {
  }

  lemma {:induction false} MulMonotone(x: int, y: int, n: nat)
    requires x <= y
    ensures x * n <= y * n
  {
  }

  /** `if (x >= 360) x -= 360; if (x < 0) x += 360;`: at most one turn of correction. */
  function Normalize(x: int): (r: int)
    ensures r == x || r == x - 360 || r == x + 360
    ensures -360 <= x < 720 <==> 0 <= r < 360
  {
    var y := if x >= 360 then x - 360 else x;
    if y < 0 then y + 360 else y
  }

  /**
   * getTwoMinuteWindAverage's direction as written: d and directionSum start at
   * slot 0's angle (even when it is -1), slots 1..119 are folded, and the sum is
   * divided by the number of valid slots among 1..119 only.
   */
  function AverageDirection(slots: seq<WindReading>): (angle: int)
    requires |slots| > 0 && CountValid(slots[1..]) > 0
    ensures var a0 := slots[0].direction.angle;
      var acc := Fold(Accum(a0, a0, 0), slots[1..]);
      && acc.count == CountValid(slots[1..]) && acc.count > 0
      && (angle == TruncDiv(acc.sum, acc.count) || angle == TruncDiv(acc.sum, acc.count) - 360
          || angle == TruncDiv(acc.sum, acc.count) + 360)
  {
    var a0 := slots[0].direction.angle;
    var acc := Fold(Accum(a0, a0, 0), slots[1..]);
    FoldCount(Accum(a0, a0, 0), slots[1..]);
    Normalize(TruncDiv(acc.sum, acc.count))
  }

  /** The samples [350, 10] followed by 118 slots without a direction. */
  function OutOfRangeSlots(): (slots: seq<WindReading>)
    ensures |slots| == 120
  {
    [WindReading(0, WindDirection(0, 350)), WindReading(0, WindDirection(0, 10))]
      + seq(118, _ => WindReading(0, WindDirection(0, -1)))
  }

  /**
   * The as-written average leaves [0, 360): 350 and 10 give d = 350 then 370,
   * directionSum = 720, one counted sample, 720 / 1 = 720, corrected once to 360.
   */
  lemma AverageDirectionLeavesRange()
    ensures var s := OutOfRangeSlots();
      SampleAngles(s) && CountValid(s[1..]) == 1 && AverageDirection(s) == 360
  {
    var s := OutOfRangeSlots();
    var invalid := s[2..];
    assert s[1..] == [s[1]] + invalid;
    forall i | 0 <= i < |invalid| ensures !IsValid(invalid[i]) {
      assert invalid[i] == s[i + 2];
    }
    var init := Accum(350, 350, 0);
    FoldConcat(init, [s[1]], invalid);
    assert [s[1]][..0] == [];
    assert Fold(init, [s[1]]) == Accum(370, 720, 1);
    FoldSkipsInvalid(Accum(370, 720, 1), invalid);
    FoldCount(init, s[1..]);
  }

  /** The first slot with a direction, if any. */
  function FirstValid(slots: seq<WindReading>): (f: Option<nat>)
    ensures f.None? ==> forall i :: 0 <= i < |slots| ==> !IsValid(slots[i])
    ensures f.Some? ==> f.value < |slots| && IsValid(slots[f.value])
    ensures f.Some? ==> forall i :: 0 <= i < f.value ==> !IsValid(slots[i])
  {
    if slots == [] then None
    else if IsValid(slots[0]) then Some(0)
    else match FirstValid(slots[1..])
      case None => None
      case Some(i) => Some(i + 1)
  }

  /** Extending a run of slots by one more slot is one more loop step. */
  lemma FoldExtend(acc: Accum, s: seq<WindReading>, lo: nat, hi: nat)
    requires lo <= hi < |s|
    ensures Fold(acc, s[lo..hi + 1]) == Step(Fold(acc, s[lo..hi]), s[hi])
  {
    assert s[lo..hi + 1][..hi - lo] == s[lo..hi];
  }

  /** Appending a slot changes the first valid one only when there was none. */
  lemma {:induction false} FirstValidSnoc(s: seq<WindReading>, x: WindReading)
    ensures FirstValid(s + [x]) ==
      match FirstValid(s)
      case None => if IsValid(x) then Some(|s|) else None
      case Some(f) => Some(f)
  {
    if s == [] {
      assert s + [x] == [x];
    } else {
      assert (s + [x])[1..] == s[1..] + [x];
      FirstValidSnoc(s[1..], x);
    }
  }

  /**
   * The intended average: every valid slot (slot 0 included) is both summed and
   * counted, d starts at the first valid slot's angle, and no valid slot is no result.
   */
  function FixedAverageDirection(slots: seq<WindReading>): (r: Option<int>)
    ensures r.None? <==> forall i :: 0 <= i < |slots| ==> !IsValid(slots[i])
  {
    match FirstValid(slots)
    case None => None
    case Some(f) =>
      var a := slots[f].direction.angle;
      var acc := Fold(Accum(a, a, 1), slots[f + 1..]);
      FoldCount(Accum(a, a, 1), slots[f + 1..]);
      Some(Normalize(TruncDiv(acc.sum, acc.count)))
  }

  /** Sum bounds that keep the average of unwrapped angles within [-360, 720). */
  predicate Bounded(acc: Accum) {
    -360 * acc.count <= acc.sum <= 719 * acc.count
  }

  lemma {:induction false} FoldBounded(acc: Accum, s: seq<WindReading>)
    requires SampleAngles(s) && Bounded(acc)
    ensures Bounded(Fold(acc, s))
  {
    if s != [] {
      FoldBounded(acc, s[..|s| - 1]);
    }
  }

  lemma TruncDivBounds(sum: int, n: int)
    requires n > 0 && -360 * n <= sum <= 719 * n
    ensures -360 <= TruncDiv(sum, n) < 720
  {
  }

  /** A completed scan from the first valid slot yields the corrected average. */
  lemma FixedAverageOfScan(slots: seq<WindReading>, f: nat, acc: Accum)
    requires FirstValid(slots) == Some(f)
    requires var a := slots[f].direction.angle; acc == Fold(Accum(a, a, 1), slots[f + 1..])
    ensures acc.count > 0
    ensures FixedAverageDirection(slots) == Some(Normalize(TruncDiv(acc.sum, acc.count)))
  {
  }

  /** With angles from the vane, the intended average is always a compass angle in [0, 360). */
  lemma FixedAverageInRange(slots: seq<WindReading>)
    requires SampleAngles(slots)
    ensures FixedAverageDirection(slots).Some? ==> 0 <= FixedAverageDirection(slots).value < 360
  {
    match FirstValid(slots)
    case None =>
    case Some(f) =>
      var a := slots[f].direction.angle;
      var tail := slots[f + 1..];
      assert SampleAngles(tail) by {
        forall i | 0 <= i < |tail| ensures tail[i] == slots[f + 1 + i] {}
      }
      FoldBounded(Accum(a, a, 1), tail);
      FoldCount(Accum(a, a, 1), tail);
      var acc := Fold(Accum(a, a, 1), tail);
      TruncDivBounds(acc.sum, acc.count);
  }

  lemma {:induction false} FoldSteady(acc: Accum, s: seq<WindReading>, a: int)
    requires acc.d == a
    requires forall i :: 0 <= i < |s| ==> !IsValid(s[i]) || s[i].direction.angle == a
    ensures Fold(acc, s).d == a
    ensures Fold(acc, s).sum - acc.sum == a * (Fold(acc, s).count - acc.count)
  {
    if s != [] {
      FoldSteady(acc, s[..|s| - 1], a);
      var p := Fold(acc, s[..|s| - 1]);
      var k := p.count - acc.count;
      if IsValid(s[|s| - 1]) {
        assert Fold(acc, s) == Accum(a, p.sum + a, p.count + 1);
        assert a * (k + 1) == a * k + a;
      }
    }
  }

  lemma TruncDivOfMultiple(a: nat, n: int)
    requires n > 0
    ensures TruncDiv(a * n, n) == a
  {
    assert a * n >= 0 by { MulMonotone(0, a, n); }
    var q := (a * n) / n;
    DivBracket(a * n, n);
    if q > a {
      MulMonotone(a + 1, q, n);
    } else if q < a {
      MulMonotone(q + 1, a, n);
    }
  }

  /** A steady wind from angle a averages to a. */
  lemma MulSuccessor(a: int, k: int)
    ensures a * k + a == a * (k + 1)
  {
  }

  /** Folding a steady angle from a seed at that angle averages back to it. */
  lemma SteadyFoldAverage(tail: seq<WindReading>, a: int)
    requires 0 <= a < 360
    requires forall i :: 0 <= i < |tail| ==> !IsValid(tail[i]) || tail[i].direction.angle == a
    ensures var acc := Fold(Accum(a, a, 1), tail);
      acc.count > 0 && Normalize(TruncDiv(acc.sum, acc.count)) == a
  {
    FoldSteady(Accum(a, a, 1), tail, a);
    var acc := Fold(Accum(a, a, 1), tail);
    var n := acc.count;
    assert acc.sum - a == a * (n - 1);
    MulSuccessor(a, n - 1);
    TruncDivOfMultiple(a, n);
    assert TruncDiv(acc.sum, n) == a;
  }

  lemma FixedAverageOfSteadyWind(slots: seq<WindReading>, a: int)
    requires 0 <= a < 360
    requires exists i :: 0 <= i < |slots| && IsValid(slots[i])
    requires forall i :: 0 <= i < |slots| ==> !IsValid(slots[i]) || slots[i].direction.angle == a
    ensures FixedAverageDirection(slots) == Some(a)
  {
    var f := FirstValid(slots).value;
    assert slots[f].direction.angle == a;
    var tail := slots[f + 1..];
    forall i | 0 <= i < |tail| ensures !IsValid(tail[i]) || tail[i].direction.angle == a {
      assert tail[i] == slots[f + 1 + i];
    }
    SteadyFoldAverage(tail, a);
    FixedAverageOfScan(slots, f, Fold(Accum(a, a, 1), tail));
  }

  /** On the slots where the as-written average gives 360, the intended one gives 0. */
  lemma FixedAverageOnOutOfRangeSlots()
    ensures FixedAverageDirection(OutOfRangeSlots()) == Some(0)
  {
    var s := OutOfRangeSlots();
    assert FirstValid(s) == Some(0);
    var invalid := s[2..];
    assert s[1..] == [s[1]] + invalid;
    forall i | 0 <= i < |invalid| ensures !IsValid(invalid[i]) {
      assert invalid[i] == s[i + 2];
    }
    var init := Accum(350, 350, 1);
    FoldConcat(init, [s[1]], invalid);
    assert [s[1]][..0] == [];
    assert Fold(init, [s[1]]) == Accum(370, 720, 2);
    FoldSkipsInvalid(Accum(370, 720, 2), invalid);
    FixedAverageOfScan(s, 0, Accum(370, 720, 2));
  }

  /** The samples [350, 10, 20] followed by 117 slots without a direction. */
  function NorthSlots(): (slots: seq<WindReading>)
    ensures |slots| == 120
  {
    [WindReading(0, WindDirection(0, 350)), WindReading(0, WindDirection(0, 10)),
     WindReading(0, WindDirection(0, 20))]
      + seq(117, _ => WindReading(0, WindDirection(0, -1)))
  }

  /**
   * Around north the as-written average points south: d runs 350, 370, 380, the
   * sum is 1100 but only two samples are counted, and 1100 / 2 = 550 becomes 190.
   */
  lemma AverageDirectionAroundNorth()
    ensures var s := NorthSlots();
      SampleAngles(s) && CountValid(s[1..]) == 2 && AverageDirection(s) == 190
  {
    var s := NorthSlots();
    var invalid := s[3..];
    assert s[1..] == [s[1], s[2]] + invalid;
    forall i | 0 <= i < |invalid| ensures !IsValid(invalid[i]) {
      assert invalid[i] == s[i + 3];
    }
    var init := Accum(350, 350, 0);
    FoldConcat(init, [s[1], s[2]], invalid);
    assert [s[1], s[2]][..1] == [s[1]] && [s[1]][..0] == [];
    assert Fold(init, [s[1]]) == Accum(370, 720, 1);
    assert Fold(init, [s[1], s[2]]) == Step(Accum(370, 720, 1), s[2]) == Accum(380, 1100, 2);
    FoldSkipsInvalid(Accum(380, 1100, 2), invalid);
    FoldCount(init, s[1..]);
  }

  /** On the same samples the intended average is 6 degrees, just east of north. */
  lemma FixedAverageAroundNorth()
    ensures FixedAverageDirection(NorthSlots()) == Some(6)
  {
    var s := NorthSlots();
    assert FirstValid(s) == Some(0);
    var invalid := s[3..];
    assert s[1..] == [s[1], s[2]] + invalid;
    forall i | 0 <= i < |invalid| ensures !IsValid(invalid[i]) {
      assert invalid[i] == s[i + 3];
    }
    var init := Accum(350, 350, 1);
    FoldConcat(init, [s[1], s[2]], invalid);
    assert [s[1], s[2]][..1] == [s[1]] && [s[1]][..0] == [];
    assert Fold(init, [s[1]]) == Accum(370, 720, 2);
    assert Fold(init, [s[1], s[2]]) == Step(Accum(370, 720, 2), s[2]) == Accum(380, 1100, 3);
    FoldSkipsInvalid(Accum(380, 1100, 3), invalid);
    FixedAverageOfScan(s, 0, Accum(380, 1100, 3));
  }
}
