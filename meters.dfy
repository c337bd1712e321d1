// The persisted weather state and the WeatherMeters engine as classes: the
// state's buffers are arrays updated in place, the engine's debounce and
// rate-limit timestamps are fields. Every method is proved against the value
// model in module Aggregation.
module Meters {
  import opened Readings
  import opened Aggregation
  import opened WindAverage

  /** A `millis()` value: an unsigned 32-bit millisecond counter that wraps. */
  newtype Millis = x: int | 0 <= x < 0x1_0000_0000

  /** `now - since` on unsigned 32-bit values: the elapsed time modulo 2^32. */
  function Elapsed(now: Millis, since: Millis): (e: int)
    ensures 0 <= e < 0x1_0000_0000
    ensures since <= now ==> e == now as int - since as int
    ensures now < since ==> e == now as int - since as int + 0x1_0000_0000
  {
    (now as int - since as int) % 0x1_0000_0000
  }

  /** The persisted record that FlashState keeps in RAM and writes to flash. */
  class WeatherState {
    var time: nat
    const lastHourOfRain: array<int>
    var previousHourlyRain: int
    const lastTwoMinutesOfWind: array<WindReading>
    var twoMinuteSecondsCounter: nat
    const windGusts: array<WindReading>
    var tenMinuteMinuteCounter: nat
    var hourlyWindGust: WindReading

    function Value(): Record
      reads this, lastHourOfRain, lastTwoMinutesOfWind, windGusts
    {
      Record(time, lastHourOfRain[..], previousHourlyRain, lastTwoMinutesOfWind[..],
             twoMinuteSecondsCounter, windGusts[..], tenMinuteMinuteCounter, hourlyWindGust)
    }

    predicate Valid()
      reads this, lastHourOfRain, lastTwoMinutesOfWind, windGusts
    {
      WellFormed(Value())
    }

    /** A zero-valued state, as on first boot. */
    constructor ()
      ensures Valid() && Value() == ZeroRecord()
      ensures fresh(lastHourOfRain) && fresh(lastTwoMinutesOfWind) && fresh(windGusts)
    {
      time := 0;
      lastHourOfRain := new int[RainSlots](_ => 0);
      previousHourlyRain := 0;
      lastTwoMinutesOfWind := new WindReading[WindSlots](_ => ZeroReading);
      twoMinuteSecondsCounter := 0;
      windGusts := new WindReading[GustSlots](_ => ZeroReading);
      tenMinuteMinuteCounter := 0;
      hourlyWindGust := ZeroReading;
      new;
      assert lastHourOfRain[..] == Zeros(RainSlots);
    }

    /** `clear()`: every field zero-valued, in place. */
    method Clear()
      requires Valid()
      modifies this, lastHourOfRain, lastTwoMinutesOfWind, windGusts
      ensures Valid() && Value() == ZeroRecord()
    {
      time := 0;
      previousHourlyRain := 0;
      twoMinuteSecondsCounter := 0;
      tenMinuteMinuteCounter := 0;
      hourlyWindGust := ZeroReading;
      forall i | 0 <= i < lastHourOfRain.Length {
        lastHourOfRain[i] := 0;
      }
      forall i | 0 <= i < lastTwoMinutesOfWind.Length {
        lastTwoMinutesOfWind[i] := ZeroReading;
      }
      forall i | 0 <= i < windGusts.Length {
        windGusts[i] := ZeroReading;
      }
      assert lastHourOfRain[..] == Zeros(RainSlots);
    }
  }

  class WeatherMeters {
    /** `flash_->state()`: the persisted record this engine is the single writer of. */
    const state: WeatherState
    var windTicks: nat
    var lastWindAt: Millis
    var lastRainAt: Millis
    var lastWindCheck: Millis
    var lastStatusTick: Millis
    var lastSave: Millis
    var currentWind: WindReading
    /** The record the last `flash_->save()` wrote. */
    var stored: Record

    predicate Valid()
      reads this, state, state.lastHourOfRain, state.lastTwoMinutesOfWind, state.windGusts
    {
      state.Valid()
    }

    /** An engine over a loaded (or zero) persisted state; transient counters start at zero. */
    constructor (persisted: WeatherState)
      requires persisted.Valid()
      ensures Valid() && state == persisted && stored == persisted.Value()
      ensures windTicks == 0 && lastWindAt == 0 && lastRainAt == 0
      ensures lastWindCheck == 0 && lastStatusTick == 0 && lastSave == 0
      ensures currentWind == ZeroReading
    {
      state := persisted;
      windTicks := 0;
      lastWindAt := 0;
      lastRainAt := 0;
      lastWindCheck := 0;
      lastStatusTick := 0;
      lastSave := 0;
      currentWind := ZeroReading;
      stored := persisted.Value();
    }

    /** `wind()`: a wind-speed pulse at `millis`, counted only after more than 10 ms of quiet. */
    method Wind(millis: Millis)
      modifies this`windTicks, this`lastWindAt
      ensures Elapsed(millis, old(lastWindAt)) > 10 ==>
        windTicks == old(windTicks) + 1 && lastWindAt == millis
      ensures Elapsed(millis, old(lastWindAt)) <= 10 ==>
        windTicks == old(windTicks) && lastWindAt == old(lastWindAt)
    {
      if Elapsed(millis, lastWindAt) > 10 {
        windTicks := windTicks + 1;
        lastWindAt := millis;
      }
    }

    /**
     * `rain()`: a bucket tip at `millis`, debounced like Wind; it adds RainPerTick
     * to the slot of the stored time's minute, and so to the hourly total.
     */
    method Rain(millis: Millis)
      requires Valid()
      modifies this`lastRainAt, state.lastHourOfRain
      ensures Valid()
      ensures Elapsed(millis, old(lastRainAt)) > 10 ==>
        var m := Minute(state.time);
        && lastRainAt == millis
        && state.lastHourOfRain[..] == old(state.lastHourOfRain[..])[m := old(state.lastHourOfRain[m]) + RainPerTick]
        && Sum(state.lastHourOfRain[..]) == old(Sum(state.lastHourOfRain[..])) + RainPerTick
      ensures Elapsed(millis, old(lastRainAt)) <= 10 ==>
        lastRainAt == old(lastRainAt) && state.lastHourOfRain[..] == old(state.lastHourOfRain[..])
    {
      if Elapsed(millis, lastRainAt) > 10 {
        var minute := Minute(state.time);
        ghost var before := state.lastHourOfRain[..];
        state.lastHourOfRain[minute] := state.lastHourOfRain[minute] + RainPerTick;
        SumUpdate(before, minute, before[minute] + RainPerTick);
        lastRainAt := millis;
      }
    }

    /** `getHourlyRain()`: the sum of the 60 per-minute slots. */
    method GetHourlyRain() returns (total: int)
      requires Valid()
      ensures total == Sum(state.lastHourOfRain[..])
    {
      var rain := state.lastHourOfRain;
      total := 0;
      var i := 0;
      while i < 60
        invariant 0 <= i <= 60
        invariant total == Sum(rain[..i])
      {
        assert rain[..i + 1][..i] == rain[..i];
        total := total + rain[i];
        i := i + 1;
      }
      assert rain[..60] == rain[..];
    }

    /**
     * `getTwoMinuteWindAverage()`, direction part: the unwrapping fold of slots
     * 1..119 seeded with slot 0, divided by the valid-slot count. The code does not
     * guard that division, so at least one of slots 1..119 must have a direction.
     */
    method GetTwoMinuteWindAverage() returns (direction: WindDirection)
      requires Valid()
      requires CountValid(state.lastTwoMinutesOfWind[1..]) > 0
      ensures direction == WindDirection(-1, AverageDirection(state.lastTwoMinutesOfWind[..]))
    {
      var slots := state.lastTwoMinutesOfWind;
      ghost var init := Accum(slots[0].direction.angle, slots[0].direction.angle, 0);
      var directionSum := slots[0].direction.angle;
      var d := slots[0].direction.angle;
      var numberOfSamples := 0;
      var i := 1;
      while i < 120
        invariant 1 <= i <= 120
        invariant Accum(d, directionSum, numberOfSamples) == Fold(init, slots[1..i])
      {
        assert slots[1..i + 1][..i - 1] == slots[1..i];
        assert slots[1..i + 1][i - 1] == slots[i];
        if slots[i].direction.angle != -1 {
          var delta := slots[i].direction.angle - d;
          if delta < -180 {
            d := d + delta + 360;
          } else if delta > 180 {
            d := d + delta - 360;
          } else {
            d := d + delta;
          }
          directionSum := directionSum + d;
          numberOfSamples := numberOfSamples + 1;
        }
        i := i + 1;
      }
      assert slots[1..120] == slots[..][1..];
      FoldCount(init, slots[..][1..]);
      var averageDirection := TruncDiv(directionSum, numberOfSamples);
      if averageDirection >= 360 {
        averageDirection := averageDirection - 360;
      }
      if averageDirection < 0 {
        averageDirection := averageDirection + 360;
      }
      direction := WindDirection(-1, averageDirection);
    }

    /**
     * The two-minute direction average as evidently intended: the loop starts at
     * slot 0, the first slot with a direction seeds the running angle and the sum,
     * and every slot with a direction is counted; no such slot gives None.
     */
    method GetCorrectedTwoMinuteWindAverage() returns (angle: Option<int>)
      requires Valid()
      ensures angle == FixedAverageDirection(state.lastTwoMinutesOfWind[..])
    {
      var slots := state.lastTwoMinutesOfWind;
      ghost var s := slots[..];
      var seen := false;
      var d, directionSum, numberOfSamples := 0, 0, 0;
      ghost var f: nat, a := 0, 0;
      var i := 0;
      while i < 120
        invariant 0 <= i <= 120
        invariant !seen ==> FirstValid(s[..i]) == None
        invariant seen ==>
          && f < i && FirstValid(s[..i]) == Some(f) && a == s[f].direction.angle
          && Accum(d, directionSum, numberOfSamples) == Fold(Accum(a, a, 1), s[f + 1..i])
      {
        FirstValidSnoc(s[..i], s[i]);
        assert s[..i] + [s[i]] == s[..i + 1];
        if seen {
          FoldExtend(Accum(a, a, 1), s, f + 1, i);
        }
        if slots[i].direction.angle != -1 {
          if !seen {
            d := slots[i].direction.angle;
            directionSum := d;
            numberOfSamples := 1;
            seen := true;
            f, a := i, d;
            assert s[i + 1..i + 1] == [];
          } else {
            d := Unwrap(d, slots[i].direction.angle);
            directionSum := directionSum + d;
            numberOfSamples := numberOfSamples + 1;
          }
        }
        i := i + 1;
      }
      assert s[..120] == s;
      if !seen {
        angle := None;
      } else {
        FixedAverageOfScan(s, f, Accum(d, directionSum, numberOfSamples));
        angle := Some(Normalize(TruncDiv(directionSum, numberOfSamples)));
      }
    }

    /**
     * `getLargestRecentWindGust()`: the strongest of the 10 buckets, starting from
     * the zero reading and replacing only on strictly stronger, so the earliest of
     * equally strong buckets wins and the zero reading stands when no bucket is faster than 0.
     */
    method GetLargestRecentWindGust() returns (gust: WindReading)
      requires Valid()
      ensures forall i :: 0 <= i < GustSlots ==> !StrongerThan(state.windGusts[i], gust)
      ensures (gust == ZeroReading) <==> forall i :: 0 <= i < GustSlots ==> state.windGusts[i].speed <= 0
      ensures gust != ZeroReading ==>
        exists k :: 0 <= k < GustSlots && gust == state.windGusts[k] &&
          forall i :: 0 <= i < k ==> state.windGusts[i].speed < gust.speed
    {
      var gusts := state.windGusts;
      gust := ZeroReading;
      var i := 0;
      while i < 10
        invariant 0 <= i <= 10
        invariant gust.speed >= 0
        invariant forall j :: 0 <= j < i ==> gusts[j].speed <= gust.speed
        invariant gust == ZeroReading <==> forall j :: 0 <= j < i ==> gusts[j].speed <= 0
        invariant gust != ZeroReading ==>
          exists k :: 0 <= k < i && gust == gusts[k] && forall j :: 0 <= j < k ==> gusts[j].speed < gust.speed
      {
        if StrongerThan(gusts[i], gust) {
          gust := gusts[i];
        }
        i := i + 1;
      }
    }

    /**
     * `getWindReading()`: the speed getWindSpeed derives from windTicks (its float
     * arithmetic is not modelled; the result is `speed`), which restarts the pulse
     * count, and the direction the mapper gives for the vane sample `adc`.
     */
    method GetWindReading(millis: Millis, speed: int, adc: int) returns (reading: WindReading)
      modifies this`windTicks, this`lastWindCheck
      ensures reading == WindReading(speed, WindDirection(adc, WindAdcToAngle(adc)))
      ensures windTicks == 0 && lastWindCheck == millis
    {
      windTicks := 0;
      lastWindCheck := millis;
      reading := WindReading(speed, WindDirection(adc, WindAdcToAngle(adc)));
    }

    /** `save()`: write the whole persisted record to flash. */
    method Save()
      requires Valid()
      modifies this`stored
      ensures stored == state.Value()
    {
      stored := state.Value();
    }

    /** The save cadence of `tick()`: save when more than 10 s have passed since the last save. */
    method SaveIfDue(millis: Millis)
      requires Valid()
      modifies this`lastSave, this`stored
      ensures if Elapsed(millis, old(lastSave)) > 10000
              then lastSave == millis && stored == state.Value()
              else lastSave == old(lastSave) && stored == old(stored)
    {
      if Elapsed(millis, lastSave) > 10000 {
        Save();
        lastSave := millis;
      }
    }

    /** The loop of the hour rollover: every rain slot back to 0. */
    method ZeroHourOfRain()
      requires Valid()
      modifies state.lastHourOfRain
      ensures Valid()
      ensures state.lastHourOfRain[..] == Zeros(RainSlots)
    {
      var rain := state.lastHourOfRain;
      var i := 0;
      while i < 60
        invariant 0 <= i <= 60
        invariant forall j :: 0 <= j < i ==> rain[j] == 0
      {
        rain[i] := 0;
        i := i + 1;
      }
      assert rain[..] == Zeros(RainSlots);
    }

    /** `if (++twoMinuteSecondsCounter > 119) twoMinuteSecondsCounter = 0;` */
    method AdvanceTwoMinuteCursor()
      requires Valid()
      modifies state`twoMinuteSecondsCounter
      ensures Valid()
      ensures state.Value() == old(state.Value()).(twoMinuteSecondsCounter := NextTwoMinute(old(state.twoMinuteSecondsCounter)))
    {
      state.twoMinuteSecondsCounter := state.twoMinuteSecondsCounter + 1;
      if state.twoMinuteSecondsCounter > 119 {
        state.twoMinuteSecondsCounter := 0;
      }
    }

    /** The hour-boundary part of `tick()`. */
    method RollHour()
      requires Valid()
      modifies state, state.lastHourOfRain
      ensures Valid()
      ensures state.Value() == HourRollover(old(state.Value()))
    {
      state.previousHourlyRain := GetHourlyRain();
      ZeroHourOfRain();
      state.hourlyWindGust := ZeroReading;
    }

    /** The minute-boundary part of `tick()`, run before the stored time is updated. */
    method RollMinute(nowUnix: nat)
      requires Valid()
      modifies state, state.lastHourOfRain, state.windGusts
      ensures Valid()
      ensures state.Value() == MinuteRollover(old(state.Value()), nowUnix)
    {
      if Hour(nowUnix) != Hour(state.time) {
        RollHour();
        // A new day (the hour going backwards) is only logged.
      }
      state.lastHourOfRain[Minute(nowUnix)] := 0;
      state.tenMinuteMinuteCounter := state.tenMinuteMinuteCounter + 1;
      if state.tenMinuteMinuteCounter > 9 {
        state.tenMinuteMinuteCounter := 0;
      }
      state.windGusts[state.tenMinuteMinuteCounter] := ZeroReading;
    }

    /** The sample-and-gust part of `tick()`. */
    method StoreSample(w: WindReading)
      requires Valid()
      modifies state, state.lastTwoMinutesOfWind, state.windGusts
      ensures Valid()
      ensures state.Value() == RecordSample(old(state.Value()), w)
    {
      state.lastTwoMinutesOfWind[state.twoMinuteSecondsCounter] := w;
      if StrongerThan(w, state.windGusts[state.tenMinuteMinuteCounter]) {
        state.windGusts[state.tenMinuteMinuteCounter] := w;
      }
      if StrongerThan(w, state.hourlyWindGust) {
        state.hourlyWindGust := w;
      }
    }

    /**
     * The window-advancing part of an effective `tick()`, with `w` the reading
     * just taken: advance the cursor, roll the minute (and hour) windows, store the
     * sample, update the gusts and stamp the time.
     */
    method AdvanceWindows(nowUnix: nat, w: WindReading)
      requires Valid()
      modifies state, state.lastHourOfRain, state.lastTwoMinutesOfWind, state.windGusts
      ensures Valid()
      ensures state.Value() == Advance(old(state.Value()), nowUnix, w)
    {
      ghost var r := state.Value();
      AdvanceTwoMinuteCursor();
      ghost var r1 := r.(twoMinuteSecondsCounter := NextTwoMinute(r.twoMinuteSecondsCounter));
      if Minute(nowUnix) != Minute(state.time) {
        RollMinute(nowUnix);
      }
      ghost var r2 := if MinuteChanged(r1, nowUnix) then MinuteRollover(r1, nowUnix) else r1;
      assert state.Value() == r2;
      StoreSample(w);
      state.time := nowUnix;
      assert state.Value() == RecordSample(r2, w).(time := nowUnix);
    }

    /** The drift check of `tick()`: clear the state when it is more than 5 minutes off the clock. */
    method CheckDrift(nowUnix: nat)
      requires Valid()
      modifies state, state.lastHourOfRain, state.lastTwoMinutesOfWind, state.windGusts
      ensures Valid()
      ensures state.Value() == DriftCheck(old(state.Value()), nowUnix)
    {
      var savedUnix := state.time;
      var difference := if nowUnix > savedUnix then nowUnix - savedUnix else savedUnix - nowUnix;
      if difference > 60 * 5 {
        state.Clear();
      }
    }

    /** The body of an effective `tick()`, once the clock second is known to have changed. */
    method EffectiveTick(millis: Millis, nowUnix: nat, speed: int, adc: int)
      requires Valid()
      modifies this, state, state.lastHourOfRain, state.lastTwoMinutesOfWind, state.windGusts
      ensures Valid()
      ensures lastWindAt == old(lastWindAt) && lastRainAt == old(lastRainAt)
      ensures currentWind == WindReading(speed, WindDirection(adc, WindAdcToAngle(adc)))
      ensures state.Value() == Advance(old(state.Value()), nowUnix, currentWind)
      ensures lastStatusTick == millis && windTicks == 0 && lastWindCheck == millis
      ensures if Elapsed(millis, old(lastSave)) > 10000
              then lastSave == millis && stored == state.Value()
              else lastSave == old(lastSave) && stored == old(stored)
    {
      lastStatusTick := millis;
      currentWind := GetWindReading(millis, speed, adc);
      AdvanceWindows(nowUnix, currentWind);
      SaveIfDue(millis);
    }

    /**
     * `tick()` at monotonic time `millis` and clock time `nowUnix`, with `speed`
     * and `adc` the wind speed and vane sample read if the tick is effective.
     */
    method Tick(millis: Millis, nowUnix: nat, speed: int, adc: int) returns (advanced: bool)
      requires Valid()
      modifies this, state, state.lastHourOfRain, state.lastTwoMinutesOfWind, state.windGusts
      ensures Valid()
      ensures lastWindAt == old(lastWindAt) && lastRainAt == old(lastRainAt)
      // rate limit: under 500 ms since the last effective tick, nothing happens
      ensures Elapsed(millis, old(lastStatusTick)) < 500 ==>
        !advanced && unchanged(this) && state.Value() == old(state.Value())
      ensures Elapsed(millis, old(lastStatusTick)) >= 500 ==>
        var r := DriftCheck(old(state.Value()), nowUnix);
        && advanced == (Second(nowUnix) != Second(r.time))
        // same clock second: at most the drift reset happened
        && (!advanced ==> state.Value() == r && unchanged(this))
        && (advanced ==>
             && currentWind == WindReading(speed, WindDirection(adc, WindAdcToAngle(adc)))
             && state.Value() == Advance(r, nowUnix, currentWind)
             && lastStatusTick == millis && windTicks == 0 && lastWindCheck == millis
             && (if Elapsed(millis, old(lastSave)) > 10000
                 then lastSave == millis && stored == state.Value()
                 else lastSave == old(lastSave) && stored == old(stored)))
    {
      if Elapsed(millis, lastStatusTick) < 500 {
        return false;
      }

      CheckDrift(nowUnix);
      if Second(nowUnix) != Second(state.time) {
        EffectiveTick(millis, nowUnix, speed, adc);
        return true;
      }
      return false;
    }
  }
}
