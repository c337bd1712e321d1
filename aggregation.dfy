// The persisted weather state as a value, and what one effective tick of
// WeatherMeters::tick does to it. The classes in module Meters are proved
// against these functions; the lemmas here state what the firmware promises.
module Aggregation {
  import opened Readings

  const RainSlots := 60
  const WindSlots := 120
  const GustSlots := 10

  /** Rain added to the current minute's slot by one bucket tip (integer stand-in for the float). */
  const RainPerTick: int := 1

  /** Seconds the stored time may differ from the clock before the state is cleared (60 * 5). */
  const DriftTolerance := 300

  /** The calendar fields of a unix time, as the real-time clock's DateTime derives them. */
  function Second(t: nat): (s: nat)
    ensures s < 60
  {
    t % 60
  }

  function Minute(t: nat): (m: nat)
    ensures m < 60
  {
    t / 60 % 60
  }

  function Hour(t: nat): (h: nat)
    ensures h < 24
  {
    t / 3600 % 24
  }

  /** The distance between two unsigned times, computed without underflow. */
  function AbsDiff(a: nat, b: nat): (d: nat)
    ensures a == b + d || b == a + d
  {
    if a > b then a - b else b - a
  }

  /** Sum of the slots, accumulated left to right as getHourlyRain's loop does. */
  function Sum(s: seq<int>): (total: int)
    ensures (forall i :: 0 <= i < |s| ==> s[i] >= 0) ==> total >= 0
    ensures (forall i :: 0 <= i < |s| ==> s[i] >= 0) ==> forall i :: 0 <= i < |s| ==> total >= s[i]
  {
    if s == [] then 0 else Sum(s[..|s| - 1]) + s[|s| - 1]
  }

  function Zeros(n: nat): seq<int>
  {
    seq(n, _ => 0)
  }

  /** Changing one slot changes the total by exactly the change in that slot. */
  lemma {:induction false} SumUpdate(s: seq<int>, i: nat, v: int)
    requires i < |s|
    ensures Sum(s[i := v]) == Sum(s) - s[i] + v
    decreases |s|
  {
    var n := |s| - 1;
    if i == n {
      assert s[i := v][..n] == s[..n];
    } else {
      assert s[i := v][..n] == s[..n][i := v];
      SumUpdate(s[..n], i, v);
    }
  }

  lemma {:induction false} SumZeros(n: nat)
    ensures Sum(Zeros(n)) == 0
  {
    if n > 0 {
      assert Zeros(n)[..n - 1] == Zeros(n - 1);
      SumZeros(n - 1);
    }
  }

  /** The fields of the persisted WeatherState, as one value. */
  datatype Record = Record(
    time: nat,
    lastHourOfRain: seq<int>,
    previousHourlyRain: int,
    lastTwoMinutesOfWind: seq<WindReading>,
    twoMinuteSecondsCounter: nat,
    windGusts: seq<WindReading>,
    tenMinuteMinuteCounter: nat,
    hourlyWindGust: WindReading)

  /** Buffer sizes and cursor ranges the firmware relies on for in-bounds indexing. */
  predicate WellFormed(r: Record) {
    && |r.lastHourOfRain| == RainSlots
    && |r.lastTwoMinutesOfWind| == WindSlots
    && |r.windGusts| == GustSlots
    && r.twoMinuteSecondsCounter < WindSlots
    && r.tenMinuteMinuteCounter < GustSlots
  }

  /** The state `clear()` leaves: every field zero-valued. */
  function ZeroRecord(): (r: Record)
    ensures WellFormed(r)
  {
    Record(0, Zeros(RainSlots), 0, seq(WindSlots, _ => ZeroReading), 0,
           seq(GustSlots, _ => ZeroReading), 0, ZeroReading)
  }

  /** Step 1 of an effective tick: clear the state when it is more than five minutes off the clock. */
  function DriftCheck(r: Record, nowUnix: nat): (r': Record)
    ensures WellFormed(r) ==> WellFormed(r')
  {
    if AbsDiff(nowUnix, r.time) > DriftTolerance then ZeroRecord() else r
  }

  /** The circular cursors: `if (++c > 119) c = 0;` and `if (++c > 9) c = 0;`. */
  function NextTwoMinute(c: nat): (c': nat)
    ensures c' < WindSlots
    ensures c < WindSlots ==> c' == (c + 1) % WindSlots
  {
    if c + 1 > 119 then 0 else c + 1
  }

  function NextTenMinute(c: nat): (c': nat)
    ensures c' < GustSlots
    ensures c < GustSlots ==> c' == (c + 1) % GustSlots
  {
    if c + 1 > 9 then 0 else c + 1
  }

  /** The minute boundary the tick detects, comparing the clock with the stored time. */
  predicate MinuteChanged(r: Record, nowUnix: nat): (b: bool)
    ensures nowUnix == r.time ==> !b
    ensures nowUnix == r.time + 60 ==> b
  {
    Minute(nowUnix) != Minute(r.time)
  }

  /**
   * The hour boundary. The firmware tests the hour only inside the minute branch;
   * within the drift tolerance that loses nothing: the hour changes only with the minute.
   */
  predicate HourChanged(r: Record, nowUnix: nat): (b: bool)
    ensures b ==> Hour(nowUnix) != Hour(r.time)
    ensures AbsDiff(nowUnix, r.time) <= DriftTolerance ==> (b <==> Hour(nowUnix) != Hour(r.time))
  {
    SameMinuteSameHour(nowUnix, r.time);
    MinuteChanged(r, nowUnix) && Hour(nowUnix) != Hour(r.time)
  }

  /** Two times at most five minutes apart with the same minute field are in the same minute, hence the same hour. */
  lemma SameMinuteSameHour(a: nat, b: nat)
    ensures AbsDiff(a, b) <= DriftTolerance && Minute(a) == Minute(b) ==> Hour(a) == Hour(b)
  {
    var qa, qb := a / 60, b / 60;
    if AbsDiff(a, b) <= DriftTolerance && Minute(a) == Minute(b) {
      assert 60 * qa <= a < 60 * qa + 60 && 60 * qb <= b < 60 * qb + 60;
      assert -5 <= qa - qb <= 5;
      assert qa % 60 == qb % 60;
      assert qa == 60 * (qa / 60) + qa % 60 && qb == 60 * (qb / 60) + qb % 60;
      assert qa == qb;
      HourOfMinutes(a);
      HourOfMinutes(b);
    }
  }

  /** The hour counter is the minute counter divided by 60. */
  lemma HourOfMinutes(t: nat)
    ensures t / 3600 == (t / 60) / 60
  {
  }

  /**
   * An effective tick (the clock second differs from the stored one) with
   * instantaneous reading `w`: advance the two-minute cursor; on a new minute
   * (and first, on a new hour) roll the rain and gust windows; store the sample;
   * update the gusts; stamp the time.
   */
  function Advance(r: Record, nowUnix: nat, w: WindReading): (r': Record)
    requires WellFormed(r)
    ensures WellFormed(r')
  {
    var r1 := r.(twoMinuteSecondsCounter := NextTwoMinute(r.twoMinuteSecondsCounter));
    var r2 := if MinuteChanged(r1, nowUnix) then MinuteRollover(r1, nowUnix) else r1;
    RecordSample(r2, w).(time := nowUnix)
  }

  /** The hour boundary: snapshot the hour's rain total, empty the hour, zero the hourly gust. */
  function HourRollover(r: Record): (r': Record)
    requires WellFormed(r)
    ensures WellFormed(r')
  {
    r.(previousHourlyRain := Sum(r.lastHourOfRain), lastHourOfRain := Zeros(RainSlots),
       hourlyWindGust := ZeroReading)
  }

  /** The minute boundary: the hour boundary if due, then reset the minute's rain slot and open a new gust bucket. */
  function MinuteRollover(r: Record, nowUnix: nat): (r': Record)
    requires WellFormed(r)
    ensures WellFormed(r')
  {
    var r1 := if Hour(nowUnix) != Hour(r.time) then HourRollover(r) else r;
    var ten := NextTenMinute(r1.tenMinuteMinuteCounter);
    r1.(lastHourOfRain := r1.lastHourOfRain[Minute(nowUnix) := 0],
        tenMinuteMinuteCounter := ten,
        windGusts := r1.windGusts[ten := ZeroReading])
  }

  /** Store the sample at the two-minute cursor and let the current bucket and the hourly gust keep the stronger. */
  function RecordSample(r: Record, w: WindReading): (r': Record)
    requires WellFormed(r)
    ensures WellFormed(r')
  {
    var ten := r.tenMinuteMinuteCounter;
    r.(lastTwoMinutesOfWind := r.lastTwoMinutesOfWind[r.twoMinuteSecondsCounter := w],
       windGusts := if StrongerThan(w, r.windGusts[ten]) then r.windGusts[ten := w] else r.windGusts,
       hourlyWindGust := if StrongerThan(w, r.hourlyWindGust) then w else r.hourlyWindGust)
  }

  /**
   * What one effective tick promises: the stamp, both cursors, the single
   * overwritten sample, the rain windows at minute and hour boundaries, and gusts
   * that keep the stronger reading.
   */
  lemma AdvanceEffects(r: Record, nowUnix: nat, w: WindReading)
    requires WellFormed(r)
    ensures Advance(r, nowUnix, w).time == nowUnix
    // cursors
    ensures Advance(r, nowUnix, w).twoMinuteSecondsCounter == (r.twoMinuteSecondsCounter + 1) % WindSlots
    ensures Advance(r, nowUnix, w).tenMinuteMinuteCounter ==
      if MinuteChanged(r, nowUnix) then (r.tenMinuteMinuteCounter + 1) % GustSlots
      else r.tenMinuteMinuteCounter
    // the two-minute sample buffer: exactly the cursor's slot is overwritten
    ensures var r' := Advance(r, nowUnix, w);
      && r'.lastTwoMinutesOfWind[r'.twoMinuteSecondsCounter] == w
      && forall i :: 0 <= i < WindSlots && i != r'.twoMinuteSecondsCounter ==>
           r'.lastTwoMinutesOfWind[i] == r.lastTwoMinutesOfWind[i]
    // rain: on a new hour the total is snapshotted and the hour emptied; on a new minute its slot is reset
    ensures var r' := Advance(r, nowUnix, w);
      HourChanged(r, nowUnix) ==>
        r'.previousHourlyRain == Sum(r.lastHourOfRain) &&
        forall i :: 0 <= i < RainSlots ==> r'.lastHourOfRain[i] == 0
    ensures !HourChanged(r, nowUnix) ==>
      Advance(r, nowUnix, w).previousHourlyRain == r.previousHourlyRain
    ensures MinuteChanged(r, nowUnix) && !HourChanged(r, nowUnix) ==>
      Advance(r, nowUnix, w).lastHourOfRain == r.lastHourOfRain[Minute(nowUnix) := 0]
    ensures !MinuteChanged(r, nowUnix) ==>
      Advance(r, nowUnix, w).lastHourOfRain == r.lastHourOfRain
    // gusts: the current bucket (zeroed when newly selected) and the hourly gust keep the stronger reading
    ensures var r' := Advance(r, nowUnix, w);
      var c := r'.tenMinuteMinuteCounter;
      var before := if MinuteChanged(r, nowUnix) then ZeroReading else r.windGusts[c];
      && r'.windGusts[c] == (if StrongerThan(w, before) then w else before)
      && !StrongerThan(w, r'.windGusts[c])
      && forall j :: 0 <= j < GustSlots && j != c ==> r'.windGusts[j] == r.windGusts[j]
    ensures var r' := Advance(r, nowUnix, w);
      var before := if HourChanged(r, nowUnix) then ZeroReading else r.hourlyWindGust;
      && r'.hourlyWindGust == (if StrongerThan(w, before) then w else before)
      && !StrongerThan(w, r'.hourlyWindGust)
  {
  }

  /** After an hour rollover the hourly rain total restarts from zero. */
  lemma HourRolloverEmptiesHour(r: Record, nowUnix: nat, w: WindReading)
    requires WellFormed(r) && HourChanged(r, nowUnix)
    ensures Sum(Advance(r, nowUnix, w).lastHourOfRain) == 0
    ensures Advance(r, nowUnix, w).previousHourlyRain == Sum(r.lastHourOfRain)
  {
    assert Advance(r, nowUnix, w).lastHourOfRain == Zeros(RainSlots);
    SumZeros(RainSlots);
  }

  /** A minute rollover without a new hour removes exactly the reused slot's rain from the total. */
  lemma MinuteRolloverDropsSlot(r: Record, nowUnix: nat, w: WindReading)
    requires WellFormed(r) && MinuteChanged(r, nowUnix) && !HourChanged(r, nowUnix)
    ensures Sum(Advance(r, nowUnix, w).lastHourOfRain)
         == Sum(r.lastHourOfRain) - r.lastHourOfRain[Minute(nowUnix)]
  {
    SumUpdate(r.lastHourOfRain, Minute(nowUnix), 0);
  }

  /**
   * A drift reset followed by the same tick's advance leaves every rain slot at 0,
   * no previous-hour total, the new sample at slot 1, and the zero reading (whose
   * angle 0 is a valid direction, north) in the other 119 two-minute slots.
   */
  lemma DriftResetTick(r: Record, nowUnix: nat, w: WindReading)
    requires AbsDiff(nowUnix, r.time) > DriftTolerance
    ensures DriftCheck(r, nowUnix) == ZeroRecord()
    ensures var r' := Advance(ZeroRecord(), nowUnix, w);
      && r'.lastHourOfRain == Zeros(RainSlots)
      && Sum(r'.lastHourOfRain) == 0
      && r'.previousHourlyRain == 0
      && r'.twoMinuteSecondsCounter == 1
      && r'.lastTwoMinutesOfWind[1] == w
      && (forall i :: 0 <= i < WindSlots && i != 1 ==> r'.lastTwoMinutesOfWind[i] == ZeroReading)
      && (forall j :: 0 <= j < GustSlots && j != r'.tenMinuteMinuteCounter ==> r'.windGusts[j] == ZeroReading)
  {
    var z := ZeroRecord();
    var r' := Advance(z, nowUnix, w);
    SumZeros(RainSlots);
    if HourChanged(z, nowUnix) {
      HourRolloverEmptiesHour(z, nowUnix, w);
    } else if MinuteChanged(z, nowUnix) {
      MinuteRolloverDropsSlot(z, nowUnix, w);
    }
  }

  /** The two-minute cursor after n effective ticks. */
  function TwoMinuteCursorAfter(c: nat, n: nat): nat
  {
    if n == 0 then c else NextTwoMinute(TwoMinuteCursorAfter(c, n - 1))
  }

  /** n effective ticks move the cursor n places round the 120-slot ring. */
  lemma {:induction false} TwoMinuteCursorWraps(c: nat, n: nat)
    requires c < WindSlots
    ensures TwoMinuteCursorAfter(c, n) == (c + n) % WindSlots
  {
    if n > 0 {
      TwoMinuteCursorWraps(c, n - 1);
      ModSuccessor(c + n - 1);
    }
  }

  /** The cursor is periodic: 120 more effective ticks bring it back to the same slot, overwriting it. */
  lemma TwoMinuteCursorPeriodic(c: nat, n: nat)
    requires c < WindSlots
    ensures TwoMinuteCursorAfter(c, n + WindSlots) == TwoMinuteCursorAfter(c, n)
  {
    TwoMinuteCursorWraps(c, n);
    TwoMinuteCursorWraps(c, n + WindSlots);
  }

  lemma ModSuccessor(x: nat)
    ensures (x % WindSlots + 1) % WindSlots == (x + 1) % WindSlots
  {
  }

  /**
   * The gust trackers stay consistent: the hourly gust is never negative and never
   * weaker than the current ten-minute bucket.
   */
  predicate GustsConsistent(r: Record)
    requires WellFormed(r)
  {
    r.hourlyWindGust.speed >= 0 &&
    !StrongerThan(r.windGusts[r.tenMinuteMinuteCounter], r.hourlyWindGust)
  }

  lemma AdvanceKeepsGustsConsistent(r: Record, nowUnix: nat, w: WindReading)
    requires WellFormed(r) && GustsConsistent(r)
    ensures GustsConsistent(Advance(r, nowUnix, w))
  {
  }

  lemma ZeroRecordGustsConsistent()
    ensures GustsConsistent(ZeroRecord())
  {
  }

  /** Samples taken from the vane keep the two-minute buffer's angles valid. */
  lemma AdvanceKeepsSampleAngles(r: Record, nowUnix: nat, speed: int, adc: int)
    requires WellFormed(r) && SampleAngles(r.lastTwoMinutesOfWind)
    ensures SampleAngles(
      Advance(r, nowUnix, WindReading(speed, WindDirection(adc, WindAdcToAngle(adc)))).lastTwoMinutesOfWind)
  {
  }

  lemma ZeroRecordSampleAngles()
    ensures SampleAngles(ZeroRecord().lastTwoMinutesOfWind)
    ensures forall i :: 0 <= i < WindSlots ==> ZeroRecord().lastTwoMinutesOfWind[i].direction.angle == 0
  {
  }
}
