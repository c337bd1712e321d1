# Weather meters: a verified Dafny model

This project models the rolling-window aggregation engine of the weather
station firmware (`WeatherMeters` in `firmware/common/weather_meters.cpp`).
The engine has five parts:

- the wind-vane mapper, which turns an ADC sample into a compass angle;
- the debounced wind and rain pulse counters;
- the read-only queries for hourly rain, the two-minute wind average and the largest recent gust;
- the once-per-second `tick()` state machine, which keeps the persisted windows;
- the persisted state, which `tick()` saves to flash once more than 10 000 ms have passed since the last save.

The project has four modules:

- `Readings` (`readings.dfy`) holds the wind reading types, the `strongerThan` ordering and the mapper. The mapper is proved equal to a first-match lookup in an ascending threshold table.
- `Aggregation` (`aggregation.dfy`) holds the persisted state as a value (`Record`). `Advance` is a pure function saying what one effective tick does to it. The lemmas state the rollover, cursor and gust properties.
- `WindAverage` (`average.dfy`) holds the direction part of the two-minute average. `AverageDirection` is the code as written. `FixedAverageDirection` is the evidently intended average (see Findings).
- `Meters` (`meters.dfy`) holds the classes.
  - `WeatherState` is the persisted record. Its three buffers are arrays updated in place.
  - `WeatherMeters` is the engine. Its debounce and rate-limit timestamps are fields.
  - The methods of `tick()` tie the new state to the functions of `Aggregation`. The queries tie their results to `Sum` and to the functions of `WindAverage`. `Wind`, `GetWindReading` and `GetLargestRecentWindGust` state their effect on the fields and arrays directly.

The environment becomes parameters:

- `millis` is an unsigned 32-bit counter. Differences wrap modulo 2^32, as `millis() - last` does on the board.
- `nowUnix` is the clock's unix time.
- `speed` is the instantaneous wind speed.
- `adc` is the vane sample.

The second, minute and hour of both the clock and the stored `time` are derived from unix seconds. `strongerThan(a, b)` is `a.speed > b.speed`. `zero()` and `clear()` give zero-valued readings and a zero-valued state; this includes `time`. A save is modelled as the field `stored`, which receives the whole record as it then is.

## Model

| member | source | states |
|---|---|---|
| Readings.WindAdcToAngle | firmware/common/weather_meters.cpp:229-247 | The mapper is total. It gives -1 exactly when the sample is at least 990. Otherwise it gives one of the sixteen listed angles, which all lie in [0, 360). |
| Readings.WindAdcToAngleIsFirstMatch | firmware/common/weather_meters.cpp:229-247 | The table is ascending. Every sample gets the angle of the first threshold it is below, or -1 past the last threshold. |
| Readings.LookupFirstMatch | firmware/common/weather_meters.cpp:229-246 | In any ascending table, the first-match lookup answers with the angle of the one row whose bracket holds the sample. |
| Readings.LookupPastEnd | firmware/common/weather_meters.cpp:246 | A sample at or above every threshold gets -1. |
| Meters.Elapsed | firmware/common/weather_meters.cpp:36 | Unsigned 32-bit subtraction: the difference itself when no wrap occurred, and the difference plus 2^32 across a wrap. |
| Meters.WeatherMeters.Wind | firmware/common/weather_meters.cpp:34-40 | The pulse is counted, and its time remembered, exactly when more than 10 ms have passed since the last counted one. Otherwise nothing changes. |
| Meters.WeatherMeters.Rain | firmware/common/weather_meters.cpp:42-49 | Under the same 10 ms gate, RainPerTick is added to the slot of the stored minute only. The hourly total then grows by exactly RainPerTick. A bounced tip changes nothing. |
| Readings.StrongerThan | firmware/common/weather_meters.cpp:121 | A reading is never stronger than itself. Of two readings with equal speed, neither is stronger, so ties never replace. |
| Aggregation.Sum | firmware/common/weather_meters.cpp:63-69 | The left-to-right total of the slots. With no negative slot, the total is not negative and is at least every slot. |
| Aggregation.SumUpdate | firmware/common/weather_meters.cpp:46 | Changing one rain slot changes the total by exactly that slot's change. |
| Meters.WeatherMeters.GetHourlyRain | firmware/common/weather_meters.cpp:63-69 | Returns the sum of the 60 rain slots and modifies nothing. |
| Meters.WeatherMeters.GetLargestRecentWindGust | firmware/common/weather_meters.cpp:118-126 | No bucket is stronger than the result. The result is the zero reading exactly when no bucket is faster than 0. Otherwise it is a bucket, and every earlier bucket is strictly slower. |
| Meters.WeatherMeters.GetTwoMinuteWindAverage | firmware/common/weather_meters.cpp:77-116 | The loop's direction is the as-written fold of slots 1..119 seeded with slot 0, divided by the count, and corrected by at most one turn. The raw field is -1. |
| WindAverage.AverageDirection | firmware/common/weather_meters.cpp:80-113 | The as-written direction divides by the number of valid slots among 1..119 only, which is never 0 here. The result differs from the truncated quotient by at most one turn. |
| WindAverage.Step | firmware/common/weather_meters.cpp:84-102 | A slot without a direction changes nothing. A valid slot adds one to the count and adds the new unwrapped d to the sum. |
| WindAverage.Fold | firmware/common/weather_meters.cpp:83-103 | The loop over a run of slots counts at most one sample per slot and never decreases the count. |
| WindAverage.Unwrap | firmware/common/weather_meters.cpp:85-95 | After a valid slot, d is the slot's angle, or one turn above or below it. It is one turn above when the delta is below -180, one turn below when the delta is above 180, and the angle itself when the delta is within [-180, 180]. |
| WindAverage.IsValid | firmware/common/weather_meters.cpp:84 | A slot counts unless its angle is the -1 marker. For angles the mapper produces, the slots that count are exactly those with a compass angle. |
| WindAverage.FoldCount | firmware/common/weather_meters.cpp:82-101 | numberOfSamples counts exactly the slots whose angle is not -1. |
| WindAverage.FoldSkipsInvalid | firmware/common/weather_meters.cpp:84 | Slots without a direction leave d, the sum and the count unchanged. |
| WindAverage.FoldTracksLastValid | firmware/common/weather_meters.cpp:83-103 | After the loop, d is within one turn of the last valid slot's angle. |
| WindAverage.TruncDiv | firmware/common/weather_meters.cpp:107 | Integer division rounds toward zero: the quotient has the sign of the dividend, and its magnitude is the floor of the magnitudes' quotient. |
| WindAverage.Normalize | firmware/common/weather_meters.cpp:108-113 | The result differs from the quotient by at most one turn. It lands in [0, 360) exactly when the quotient is in [-360, 720). |
| WindAverage.AverageDirectionLeavesRange | firmware/common/weather_meters.cpp:80-113 | On slots 350, 10 and then no direction, the as-written average is 360, which is not a compass angle. |
| WindAverage.AverageDirectionAroundNorth | firmware/common/weather_meters.cpp:80-113 | On slots 350, 10, 20 and then no direction, the as-written average is 190, pointing away from north. |
| WindAverage.FirstValid | firmware/common/weather_meters.cpp:84 | Finds the first slot with a direction: it is valid and every earlier slot is not. None exactly when no slot has a direction. |
| WindAverage.FirstValidSnoc | firmware/common/weather_meters.cpp:83-84 | Scanning one more slot changes the first valid slot only when there was none yet. |
| WindAverage.FixedAverageDirection | firmware/common/weather_meters.cpp:80-113 | The corrected average is None exactly when no slot has a direction, where the code divides by zero. Its range and values are the lemmas below. |
| WindAverage.FixedAverageOfScan | firmware/common/weather_meters.cpp:83-113 | A scan that starts at the first valid slot and folds the rest yields the corrected average, with a count that is never 0. |
| WindAverage.FixedAverageInRange | firmware/common/weather_meters.cpp:80-113 | With angles the mapper produces, the corrected average is always in [0, 360). |
| WindAverage.FixedAverageOfSteadyWind | firmware/common/weather_meters.cpp:80-113 | A steady wind from angle a, with any slots missing, averages to exactly a. |
| WindAverage.FixedAverageOnOutOfRangeSlots | firmware/common/weather_meters.cpp:80-113 | On the slots where the as-written code gives 360, the corrected average gives 0. |
| WindAverage.FixedAverageAroundNorth | firmware/common/weather_meters.cpp:80-113 | On slots 350, 10, 20, the corrected average gives 6. |
| Meters.WeatherMeters.GetCorrectedTwoMinuteWindAverage | firmware/common/weather_meters.cpp:77-116 | The loop over all 120 slots computes the corrected average. |
| Meters.WeatherMeters.GetWindReading | firmware/common/weather_meters.cpp:71-75 | The reading is the given speed plus the vane sample with its mapped angle. The speed measurement restarts: the pulse count is 0 and the check time is now. |
| Meters.WeatherMeters.Tick | firmware/common/weather_meters.cpp:128-202 | The full contract of one tick. Under 500 ms since the last effective tick, it returns false and changes nothing. Otherwise the drift check runs first. It returns true exactly when the clock second differs from the stored one. When it does not, only the drift clear may have happened. When it does, the state is `Advance` of the checked state with the reading just taken, the status tick is now, and a save happened exactly when more than 10 000 ms had passed since the last one. |
| Meters.WeatherMeters.CheckDrift | firmware/common/weather_meters.cpp:137-143 | The state is cleared exactly when the clock and the stored time differ by more than 300 s. Otherwise it is untouched. |
| Aggregation.AbsDiff | firmware/common/weather_meters.cpp:139 | The difference is computed without underflow: one time equals the other plus the difference. |
| Aggregation.DriftCheck | firmware/common/weather_meters.cpp:140-143 | The drift reset keeps the state well formed. |
| Meters.WeatherState.Clear | firmware/common/weather_meters.cpp:142 | Every field becomes zero-valued, in place. |
| Aggregation.DriftResetTick | firmware/common/weather_meters.cpp:140-191 | A drift reset followed by the same tick's advance leaves every rain slot at 0 and no previous-hour total. The two-minute cursor is at 1, which holds the new reading. The other 119 two-minute slots hold the zero reading. Its angle 0 is a valid direction, so the two-minute average then counts them as samples from north. Every gust bucket other than the current one is zero. |
| Meters.WeatherMeters.EffectiveTick | firmware/common/weather_meters.cpp:145-198 | Once the second has changed: the reading is taken, the windows advance as `Advance` says, and the save cadence holds. |
| Meters.WeatherMeters.AdvanceWindows | firmware/common/weather_meters.cpp:150-191 | The in-place updates of an effective tick produce exactly `Advance` of the previous record. |
| Aggregation.Advance | firmware/common/weather_meters.cpp:150-191 | An effective tick keeps the buffers at 60, 120 and 10 slots and both cursors in range, so every index used is in bounds. |
| Aggregation.MinuteChanged | firmware/common/weather_meters.cpp:154 | The minute test compares the clock's minute with the stored one. It is false at the stored time itself and true when the clock is 60 s ahead of it. |
| Aggregation.HourChanged | firmware/common/weather_meters.cpp:158 | The hour test sits inside the minute branch, so a new hour counts only together with a new minute. It implies that the hour differs. Within the 300 s drift tolerance, it holds exactly when the hour differs, so the nesting loses no hour change. |
| Aggregation.SameMinuteSameHour | firmware/common/weather_meters.cpp:154-158 | Two times at most 300 s apart with the same minute field have the same hour. |
| Aggregation.AdvanceEffects | firmware/common/weather_meters.cpp:150-191 | The time becomes the clock's. The two-minute cursor moves one place modulo 120. The ten-minute cursor moves one place modulo 10 exactly on a new minute. Only the cursor's sample slot changes, and it holds the reading. On a new hour, the previous total is the old hourly sum and all rain slots are 0. On a new minute within the hour, only that minute's rain slot is reset. Without a new minute, the rain is untouched. The current bucket (zeroed when newly selected) and the hourly gust (zeroed on a new hour) become the reading exactly when it is strictly stronger. Afterwards neither is weaker than the reading, and the other buckets are unchanged. |
| Aggregation.NextTwoMinute | firmware/common/weather_meters.cpp:150-152 | The two-minute cursor stays below 120 and advances by one modulo 120. |
| Aggregation.NextTenMinute | firmware/common/weather_meters.cpp:174-176 | The ten-minute cursor stays below 10 and advances by one modulo 10. |
| Aggregation.TwoMinuteCursorWraps | firmware/common/weather_meters.cpp:150-152 | After n effective ticks, the two-minute cursor has moved n places around the 120-slot ring. |
| Aggregation.TwoMinuteCursorPeriodic | firmware/common/weather_meters.cpp:150-181 | After 120 more effective ticks, the cursor is back at the same slot, so each sample is overwritten two minutes later. |
| Meters.WeatherMeters.AdvanceTwoMinuteCursor | firmware/common/weather_meters.cpp:150-152 | The in-place cursor update is `NextTwoMinute`. Nothing else changes. |
| Meters.WeatherMeters.RollMinute | firmware/common/weather_meters.cpp:154-179 | The in-place minute rollover is `MinuteRollover`. That is, the hour rollover runs first when the hour changed, then the minute's rain slot is reset and the next gust bucket is selected and zeroed. |
| Aggregation.MinuteRollover | firmware/common/weather_meters.cpp:154-179 | The minute rollover keeps the state well formed. |
| Aggregation.MinuteRolloverDropsSlot | firmware/common/weather_meters.cpp:172 | A minute rollover without a new hour removes exactly the reused slot's rain from the hourly total. |
| Meters.WeatherMeters.RollHour | firmware/common/weather_meters.cpp:158-166 | The in-place hour rollover is `HourRollover`: the previous total is set to the hour's sum, every slot is set to 0, and the hourly gust is zeroed. |
| Aggregation.HourRollover | firmware/common/weather_meters.cpp:158-166 | The hour rollover keeps the state well formed. |
| Aggregation.HourRolloverEmptiesHour | firmware/common/weather_meters.cpp:158-166 | After an hour rollover, the hourly total is 0 and the previous total is the old sum. |
| Meters.WeatherMeters.ZeroHourOfRain | firmware/common/weather_meters.cpp:162-164 | The loop sets all 60 rain slots to 0. |
| Aggregation.SumZeros | firmware/common/weather_meters.cpp:161-164 | An emptied hour sums to 0. |
| Meters.WeatherMeters.StoreSample | firmware/common/weather_meters.cpp:181-189 | The in-place sample and gust update is `RecordSample`. |
| Aggregation.RecordSample | firmware/common/weather_meters.cpp:181-189 | Storing a sample keeps the state well formed. |
| Aggregation.AdvanceKeepsGustsConsistent | firmware/common/weather_meters.cpp:166-189 | An effective tick preserves the gust invariant: the hourly gust is not negative, and no current bucket is stronger than it. |
| Aggregation.ZeroRecordGustsConsistent | firmware/common/weather_meters.cpp:142 | A cleared state satisfies the gust invariant. |
| Aggregation.AdvanceKeepsSampleAngles | firmware/common/weather_meters.cpp:214-219 | Samples taken from the vane keep every two-minute slot at -1 or a compass angle. This is what `FixedAverageInRange` needs. |
| Aggregation.ZeroRecordSampleAngles | firmware/common/weather_meters.cpp:142 | A cleared state's samples all have angle 0, so every angle is -1 or a compass angle. |
| Aggregation.ZeroRecord | firmware/common/weather_meters.cpp:142 | The cleared state is well formed. |
| Aggregation.Second | firmware/common/weather_meters.cpp:145 | The second of a stored or clock time lies in [0, 60). |
| Aggregation.Minute | firmware/common/weather_meters.cpp:154-172 | The minute lies in [0, 60), so it indexes the rain buffer in bounds. |
| Aggregation.Hour | firmware/common/weather_meters.cpp:158 | The hour lies in [0, 24). |
| Meters.WeatherMeters.SaveIfDue | firmware/common/weather_meters.cpp:193-196 | A save happens, and the save time is updated, exactly when more than 10 000 ms have passed since the last save. Otherwise neither changes. |
| Meters.WeatherMeters.Save | firmware/common/weather_meters.cpp:222-223 | The whole record as it stands is written. |
| Meters.WeatherState.constructor | firmware/common/weather_meters.cpp:142 | A fresh state is zero-valued and well formed. |
| Meters.WeatherMeters.constructor | firmware/common/weather_meters.cpp:30-32 | The engine starts over the given persisted state, with every transient timestamp and counter at 0. |

## Left out

- Interrupt glue and `setup()` are left out: `isr_wind_falling`, `isr_rain_falling`, `isr_rain_change`, the global singleton, `pinMode` and `attachInterrupt`. These are hardware I/O.
- Concurrency between the interrupt handlers and `tick()` is left out. Every call is modelled as sequential.
- Calls into code that is not modelled become parameters or fields:
  - `clock.now()` becomes `nowUnix`, and `millis()` becomes `millis`;
  - `analogRead` becomes `adc`, and the sample is not narrowed to 16 bits;
  - `flash_->save()` becomes the `stored` field;
  - `loginfof` and `Serial` output are dropped. This includes the New Day branch, which only logs.
- Meters.WeatherMeters.Tick: one `millis` value stands for every `millis()` call of one tick. An effective tick makes six: the rate-limit test, the status stamp, two in `getWindSpeed`, the save test and the save stamp. The time that passes between them is not modelled.
- Meters.WeatherMeters.GetWindReading: the float speed arithmetic of `getWindSpeed` (ticks per elapsed second times `WindPerTick`) is not modelled. The speed is a parameter, and only the counter reset is modelled.
- Meters.WeatherMeters.GetTwoMinuteWindAverage: the float `averageSpeed` is not modelled, so only the direction is returned.
- Meters.WeatherMeters.GetTwoMinuteWindAverage: it requires one slot among 1..119 with a direction. The code divides by `numberOfSamples` without a guard, and the result is undefined when it is 0.
- Meters.WeatherMeters.GetTwoMinuteWindAverage: `directionSum` is an unbounded integer. The firmware's 16-bit `directionSum` can overflow when many slots are valid. `d` stays within one turn of a compass angle and cannot overflow.
- Meters.WeatherMeters.Rain: the value of `RainPerTick` comes from a header that is not part of this model. It is the integer 1 here, and rain amounts are integers.
- Speeds are integers. Only comparison and addition are used on them.
- `weather_meters.h` is not part of this model. That covers the field types, `strongerThan`, `zero()`, `clear()` and `date_time()`, which are modelled as described above.
- Meters.WeatherMeters.constructor: the starting values of the transient fields (0 for the timestamps and `windTicks`, the zero reading for `currentWind`) come from member initializers in `weather_meters.h`, which is not part of this model. The cited constructor lines only store the flash handle and the global pointer.
- Aggregation.Second: the second, minute and hour of every stored time, including the time 0 that `clear()` leaves, are assumed to be `t % 60`, `t / 60 % 60` and `t / 3600 % 24`. The real-time clock library's `date_time()` for times before 2000 is not part of this model. This choice decides whether the first tick after a drift reset advances: here it does unless the clock's second is 0.
- Meters.WeatherMeters.Save: every save succeeds in the model, because `stored` always receives the record. The firmware ignores the result of `flash_->save()` and updates `lastSave` either way. A failed flash write is not modelled.
- Loading and formatting flash, and the saved header's timestamp, are left out.
- `firmware/module/main.cpp` is left out. It is module and bus plumbing over a library that is not available.
- `firmware/common/board_definition.h` is left out. It holds pin constants only.

## Findings

The code's two-minute average is not the circular mean of the valid samples, in which every valid slot is summed and counted, unwrapped from the first valid one. `GetTwoMinuteWindAverage` models the code as written. The corrected mean is modelled beside it.

| source | as written | input that shows it | evidently intended | confidence | as-written member | corrected member |
|---|---|---|---|---|---|---|
| firmware/common/weather_meters.cpp:80-101 | `directionSum` and `d` start at slot 0's angle, even when it is -1. The loop counts only slots 1..119, so slot 0's angle is summed but not counted. | Slots 350, 10, 20 and then 117 without a direction: the sum 1100 is divided by 2 and gives 190. Slots 350, 10 and then 118 without a direction give 360, outside [0, 360). | The mean of all valid slots, unwrapped from the first valid one, so that every result lies in [0, 360). Here that gives 6 and 0. | not executed | WindAverage.AverageDirectionAroundNorth | WindAverage.FixedAverageInRange |
