# CYG Skyline integration core in Dafny

This project models the decision logic of the `cyg_skyline` Home Assistant
integration, which polls one or more CYG Skyline hybrid solar inverters over
Modbus. Each piece is a pure function over immutable data. Time (`now`, in
whole seconds) and the integration-wide constants are explicit parameters.
Powers are exact `real`s. Python's implicit conversions are written out:
`int()` on a float truncates toward zero (`Common.Trunc`), and `math.ceil(a / b)`
is `Common.CeilDiv`.

The modules follow the source:

- `Codec` covers `registers_to_unsigned_32`, `registers_to_signed_32`,
  `register_to_signed_16` and `registers_to_string`. It also has the encoders
  they invert.
- `Text` covers the string operations of Python the source relies on:
  `str.strip`, `str(int)`, `int(str)`, `str.split`, `str.join` and
  `str.replace(" ", "")`.
- `Aggregator` covers `Controller.aggregate`: named FIFO windows of samples
  with insert, fetch-only, insert-only and raw pass-through modes.
- `Detector` covers `Controller.am_exporting_importing`, the all-or-nothing
  import and export test over a device's grid-load window.
- `Inverter` covers `Inverter` from inverter.py without its transport:
  - the table of pending writes that `write_register` fills;
  - its reconciliation on every block read;
  - `shag_pv_energy_today`.
- `FeedIn` covers `Controller.update_feed_in_excess`, the excess-solar
  feed-in controller, and its gate in the poll.
- `PollCycle` covers one run of `Controller.poll_inverters`:
  - the six block reads per device;
  - validation, which abandons the whole poll on a short block or an all-zero
    counter signature;
  - decoding and the grid-load window;
  - the site windows and the gated feed-in update.
- `NumberEntity` covers the parallel-inverter scaling of number entities and
  the two value conversions.
- `SelectEntity` covers the option ↔ register-value map of select entities and
  the work-mode special case. Mode 5, "Feed In Excess Solar", turns excess
  matching on and is written as mode 1.
- `HostList` covers the `host[:port],...` setting parsed by
  `get_identity_info`.

Exceptions the Python raises become explicit outcomes:

- `Aggregator.AggResult.Raised`;
- `FeedIn.Decision.Failed`;
- `PollCycle.PollOutcome.Crashed`;
- `SelectEntity.SelectResult.raised`;
- `None` results for ValueError, IndexError and ZeroDivisionError.

Each Modbus host is a parameter. Read responses come in as
`Inverter.ReadResponse`, and writes go out as `Inverter.HostWrite` commands.

The model follows the code, including these behaviours a reader might not
expect:

- The aggregator averages the OLDEST `min(count, len)` stored samples, and all
  of them when `count` is 0. It does not average the newest.
- A short block or the all-zero signature `return`s from the whole poll. It
  does not discard just that device. Only exceptions are caught per device.
- The feed-in target in kW has no lower clamp at 0. The only floor is the
  per-inverter `max(..., excess_min_feed_in_rate)`.
- The grace period of a pending write ends at `now + poll interval - 1`.
- The feed-in hysteresis compares the per-inverter value before rounding up
  to 50 W with the rounded value it last committed. With a floor that is not
  a multiple of 50 W, a value at the floor is committed again, unchanged,
  every time the slow period passes.
- A resend that fails at the transport still consumes an attempt. The Modbus
  host swallows the error, and the loop counts the attempt down regardless.

## Model

| member | source | states |
|---|---|---|
| Common.Trunc | custom_components/cyg_skyline/number.py:248 | `int(x)` is the integer next to `x` toward zero: at most `x` and within 1 of it for `x ≥ 0`, at least `x` and within 1 of it for `x < 0` |
| Common.CeilDiv | custom_components/cyg_skyline/controller.py:140-142 | `math.ceil(a / b)` for `b > 0` is the unique `r` with `a ≤ r·b < a + b` |
| Common.CeilDivPositive | custom_components/cyg_skyline/controller.py:508-510 | a window capacity `ceil(period / interval)` is at least 1 exactly when the period is positive |
| Common.MeanWithin | custom_components/cyg_skyline/controller.py:125-136 | the mean of samples that all lie in `[lo, hi]` lies in `[lo, hi]` |
| Common.SumWithin | custom_components/cyg_skyline/controller.py:125-129 | the running total of `n` samples in `[lo, hi]` lies in `[n·lo, n·hi]` |
| Text.Strip | custom_components/cyg_skyline/controller.py:885 | `strip()` is the slice of the input that starts right after its leading whitespace and is followed only by whitespace; it neither starts nor ends with whitespace. So an all-whitespace string strips to empty and an already trimmed string is unchanged |
| Text.Split | custom_components/cyg_skyline/controller.py:752 | `split(sep)` yields at least one piece, and no piece contains the separator |
| Text.Remove | custom_components/cyg_skyline/controller.py:752 | `replace(" ", "")` leaves no space, never lengthens, and leaves a space-free string unchanged. On one character it keeps it exactly when it is not the removed one |
| Text.RemoveAppend | custom_components/cyg_skyline/controller.py:752 | removal distributes over concatenation, so with the one-character case it is an order-preserving filter that keeps every other character |
| Text.ParseIntToString | custom_components/cyg_skyline/select.py:118-122 | `int(str(i)) == i` for every integer, negative ones included |
| Text.IntToStringInjective | custom_components/cyg_skyline/select.py:118-122 | two register values with the same `str()` are equal, so the string comparison in the map lookup identifies one value |
| Text.SplitJoin | custom_components/cyg_skyline/controller.py:752 | splitting `sep.join(parts)` on `sep` gives back `parts` when no part contains `sep` |
| Codec.RegistersToUnsigned32 | custom_components/cyg_skyline/controller.py:901-905 | the big-endian `>L` reading lies in `[0, 2^32)`, with `regs[pos]` as its high 16 bits and `regs[pos+1]` as its low 16 bits |
| Codec.RegistersToSigned32 | custom_components/cyg_skyline/controller.py:888-892 | the `>l` reading lies in `[-2^31, 2^31)`, agrees with the unsigned reading modulo 2^32, and is negative exactly when the high register's top bit is set |
| Codec.RegisterToSigned16 | custom_components/cyg_skyline/controller.py:895-898 | the `>h` reading is `r - 65536` exactly when `r ≥ 32768`, otherwise `r`, and agrees with `r` modulo 2^16 |
| Codec.Unsigned32RoundTrip | custom_components/cyg_skyline/controller.py:901-905 | decoding the big-endian register pair of any unsigned 32-bit value gives that value back |
| Codec.Signed32RoundTrip | custom_components/cyg_skyline/controller.py:888-892 | decoding the two's-complement register pair of any signed 32-bit value gives that value back |
| Codec.RegistersRoundTrip | custom_components/cyg_skyline/controller.py:888-905 | re-encoding either 32-bit reading of two registers reproduces the two registers |
| Codec.PackedCharsShape | custom_components/cyg_skyline/controller.py:872-883 | the unstripped field has at most two characters per register, each a non-zero byte |
| Codec.RegistersToString | custom_components/cyg_skyline/controller.py:868-885 | the field is `None` (IndexError) exactly when it runs past the block. Otherwise it is the high-then-low non-zero bytes of each register, stripped: at most `2·length` characters, all non-zero bytes. inverter.py:97-114 is the same function as a method |
| Codec.PackedCharsOfString | custom_components/cyg_skyline/controller.py:872-883 | the packed characters of a string laid out two per register are that string |
| Codec.StringRoundTrip | custom_components/cyg_skyline/controller.py:868-885 | a serial or model number of non-zero bytes without surrounding whitespace, laid out two characters per register, decodes back to itself |
| Aggregator.PopWhileFullIsEvict | custom_components/cyg_skyline/controller.py:117-118 | the `pop(0)` loop leaves a full window's newest `trimTo - 1` samples, in order, and leaves an unfull window alone |
| Aggregator.PushShape | custom_components/cyg_skyline/controller.py:114-120 | after an insert the window holds 1 to `trimTo` samples; the new sample is last; the survivors before it are the newest old samples in their old order; nothing is evicted from a window that was not full |
| Aggregator.AveragedSamples | custom_components/cyg_skyline/controller.py:125-131 | the summing loop takes a prefix of the window (the oldest samples) of length `min(count, len)`, or the whole window when `count < 1` |
| Aggregator.Stored | custom_components/cyg_skyline/controller.py:110-120 | the insert half changes at most the named window: not at all when fetch-only, to `[]` when the capacity is below 1, else to one push of the old window (a missing window counts as empty) |
| Aggregator.Reply | custom_components/cyg_skyline/controller.py:125-136 | the fetch half raises exactly when the window is missing or, while averaging, no sample is summed; with the no-aggregation switch and no override it returns the raw sample; otherwise it returns the mean of the summed samples |
| Aggregator.Aggregate | custom_components/cyg_skyline/controller.py:98-136 | a call changes at most the window it names, and changes it as its insert half says |
| Aggregator.InsertRespectsCapacity | custom_components/cyg_skyline/controller.py:110-120 | after any call that is not fetch-only, the window exists. With capacity `t ≥ 1` it holds 1 to `t` samples, the newest being the inserted one. With `t < 1` the window is emptied and the call raises |
| Aggregator.InsertIsPush | custom_components/cyg_skyline/controller.py:110-120 | the window an inserting call leaves (capacity `trimTo`, or `count` for the default `-1`) is one push of the old window |
| Aggregator.FetchOnlyLeavesWindows | custom_components/cyg_skyline/controller.py:110-136 | a fetch-only call changes no window. It raises exactly when the window is missing or, while averaging, would sum no sample |
| Aggregator.InsertOnlyReturnsNothing | custom_components/cyg_skyline/controller.py:122-123 | an insert-only call never returns a number |
| Aggregator.NoAggregationPassesRaw | custom_components/cyg_skyline/controller.py:133-134 | with `NO_AGGREGATION` on and `always_aggregate` off, every call that returns hands back the raw input |
| Aggregator.AverageOfOldest | custom_components/cyg_skyline/controller.py:125-136 | while averaging, a returned number is the mean of the oldest `min(count, len)` samples of the window after the insert, or of all of them when `count < 1` |
| Aggregator.AverageWithinSamples | custom_components/cyg_skyline/controller.py:110-136 | if the stored samples and the new one lie in `[lo, hi]`, so does the reported average |
| Aggregator.PushAllKeepsNewest | custom_components/cyg_skyline/controller.py:117-120 | a window of capacity `count` that is only ever inserted into holds exactly the newest `count` samples of its whole history, oldest first |
| Aggregator.PushKeepsNewest | custom_components/cyg_skyline/controller.py:117-120 | one insert turns the newest-`count` window of a history into the newest-`count` window of that history plus the new sample |
| Aggregator.ThirteenPushesIntoTwelve | custom_components/cyg_skyline/controller.py:117-120 | inserting 1..13 into an empty window of capacity 12 leaves 2..13 |
| Aggregator.FetchAveragesOldest | custom_components/cyg_skyline/controller.py:127-131 | a fetch of 5 from the window 2..13 averages the oldest five samples (2..6) to 4 |
| Detector.MinSamples | custom_components/cyg_skyline/controller.py:140-142 | the required sample count is the fewest poll intervals that cover the monitoring duration |
| Detector.ScanMeansEverySample | custom_components/cyg_skyline/controller.py:149-158 | the early-exit loop returns true for import exactly when every sample is above the threshold, and for export exactly when every sample is below its negation |
| Detector.DetectorCharacterisation | custom_components/cyg_skyline/controller.py:138-166 | importing holds exactly when the window has at least the minimum count and every sample is above the threshold. Exporting holds exactly when it has the count and every sample is below minus the threshold |
| Detector.NeverImportingAndExporting | custom_components/cyg_skyline/controller.py:138-166 | with a non-negative threshold, a non-empty window is never importing and exporting at once |
| Detector.OneSampleResets | custom_components/cyg_skyline/controller.py:154-158 | one sample at or below the threshold anywhere clears importing; one at or above minus the threshold clears exporting |
| FeedIn.SocBias | custom_components/cyg_skyline/controller.py:592-612 | the SoC bias always lies within `±excess_max_soc_deviation_kw`. It equals the raw `(soc - target)·rate` whenever that is within the band, the upper bound above it and the lower bound below it |
| FeedIn.SocBiasMonotone | custom_components/cyg_skyline/controller.py:592-612 | with a non-negative rate the bias never falls as the state of charge rises |
| FeedIn.TargetKw | custom_components/cyg_skyline/controller.py:591-626 | the target never exceeds the export cap. Without excess it is the capped mean, unbiased. With excess it is the mean plus the SoC bias, capped, and so lies within the max deviation of the mean, each side capped |
| FeedIn.TargetKwMonotoneInSoc | custom_components/cyg_skyline/controller.py:591-626 | with a non-negative rate a fuller battery never lowers the target, whatever the mean excess |
| FeedIn.NoBiasWithoutExcess | custom_components/cyg_skyline/controller.py:591 | with no positive excess the target does not depend on the state of charge |
| FeedIn.PerInverterW | custom_components/cyg_skyline/controller.py:629-630 | the per-inverter value is never below the floor. It is the floor whenever the split is at most the floor; otherwise it is the split truncated toward zero to whole watts, on either side of zero |
| FeedIn.Quantize | custom_components/cyg_skyline/controller.py:660 | the committed value is the least multiple of 50 W not below the per-inverter value |
| FeedIn.Hysteresis | custom_components/cyg_skyline/controller.py:632-660 | the hysteresis yields a commit or one of the three refusals, and a commit carries the quantised value. The refusals and commits are stated for all inputs by the lemmas below |
| FeedIn.NoChangeIsRefused | custom_components/cyg_skyline/controller.py:632-636 | a per-inverter value equal to `last_excess`, the last committed quantised value, is refused |
| FeedIn.OffGridFloorIsRecommitted | custom_components/cyg_skyline/controller.py:632-662 | the hysteresis compares the unquantised value with the quantised one it stored: with a 1001 W floor, 1001 W committed as 1050 W is committed as 1050 W again once the slow period has passed |
| FeedIn.SmallChangeAboveFloorIsRefused | custom_components/cyg_skyline/controller.py:637-644 | a non-zero change smaller than the slow threshold is refused while the value is above the floor, whatever the time |
| FeedIn.ModerateChangeTooSoonIsRefused | custom_components/cyg_skyline/controller.py:645-658 | any other non-zero change smaller than the rapid threshold is refused while the slow period since the last sync has not passed |
| FeedIn.WaitingOnlyOpensTheGate | custom_components/cyg_skyline/controller.py:632-658 | time enters the hysteresis only through the slow period: at any later time a decision other than "too soon" is unchanged, and a "too soon" one is still too soon or has become the commit |
| FeedIn.FirstUpdateAlwaysCommits | custom_components/cyg_skyline/controller.py:632 | with `last_excess < 0` there is no gating |
| FeedIn.RapidChangeCommitsAtOnce | custom_components/cyg_skyline/controller.py:638-658 | a change of at least both thresholds is committed however recent the last sync |
| FeedIn.SlowChangeCommitsAfterPeriod | custom_components/cyg_skyline/controller.py:638-658 | a change of at least the slow threshold is committed once the slow period has elapsed |
| FeedIn.FloorIgnoresSlowBand | custom_components/cyg_skyline/controller.py:638-644 | a value at the floor bypasses the small-change band: after the slow period any change to it is committed |
| FeedIn.CommittedAboveFloor | custom_components/cyg_skyline/controller.py:630-660 | a committed value is never below `excess_min_feed_in_rate` |
| FeedIn.EightyWattsIsTooSmall | custom_components/cyg_skyline/controller.py:638-644 | with the default thresholds, moving from 1000 W to 1080 W is refused as too small |
| FeedIn.UpdateFeedInExcess | custom_components/cyg_skyline/controller.py:577-589 | every update records `now` as the last feed-in poll, whatever happens next. It never changes the windows, the matching flag, the tuning or the state of charge. It does nothing when matching is off |
| FeedIn.DecisionFollowsWindowMean | custom_components/cyg_skyline/controller.py:577-660 | with matching on, an update fails (KeyError or ZeroDivisionError) exactly when the excess window is missing or empty or there are no inverters. Otherwise its decision is the hysteresis of the per-inverter split of the SoC-biased, export-capped mean of every sample in the window |
| FeedIn.CommitEffects | custom_components/cyg_skyline/controller.py:660-670 | a commit is the quantised per-inverter split of the biased, capped mean of the whole excess window. It is a multiple of 50 W, at least the floor, and recorded as last excess with the sync time `now`. It is sent as the only command, a write of 0x30BA, to the first inverter, which then holds a fresh pending entry with ten attempts; the other inverters are untouched |
| FeedIn.NoCommitNoWrite | custom_components/cyg_skyline/controller.py:632-658 | an update that does not commit sends nothing and changes nothing but the poll time |
| FeedIn.UpdateShutsGateForAMinute | custom_components/cyg_skyline/controller.py:527-531 | after any feed-in update, the poll gate stays shut for 60 seconds |
| FeedIn.TwoAndAHalfKilowatts | custom_components/cyg_skyline/controller.py:583-670 | one inverter, 2.5 kW of average excess at the target SoC and no previous commit: 2500 W is committed |
| Inverter.WriteRegister | custom_components/cyg_skyline/inverter.py:150-162 | a write replaces the register's entry with (value, 10 attempts, trusted from `now + poll interval - 1`), leaves every other entry and field alone, and sends the write |
| Inverter.Verify | custom_components/cyg_skyline/inverter.py:181-212 | one read-back of an entry works as follows. During grace: kept, no resend. Matching after grace: removed, no resend. Mismatching after grace: resent, then removed on the last attempt or counted down by one. A resend happens only on a post-grace mismatch |
| Inverter.Settle | custom_components/cyg_skyline/inverter.py:176-212 | one loop iteration changes only its own address's entry, as `Verify` says, and resends its stored value exactly when `Verify` calls for it |
| Inverter.ReconcileInside | custom_components/cyg_skyline/inverter.py:174-214 | after a block read, the entry for `start + i` is settled against the `i`-th returned register |
| Inverter.ReconcileOutside | custom_components/cyg_skyline/inverter.py:174-214 | entries for addresses outside the block are untouched |
| Inverter.ReconcileCommandsSound | custom_components/cyg_skyline/inverter.py:174-214 | every resend answers a post-grace mismatch inside the block and carries the stored value, and resends go out in ascending address order |
| Inverter.ReconcileCommandsComplete | custom_components/cyg_skyline/inverter.py:186-196 | every post-grace mismatch in the block is resent with its stored value |
| Inverter.ReadHoldingRegisters | custom_components/cyg_skyline/inverter.py:164-218 | a missing, error or empty response returns `None`, sends nothing and leaves every entry untouched. A block is returned as read, and only the pending table changes |
| Inverter.ReadReconcilesBlock | custom_components/cyg_skyline/inverter.py:164-216 | a successful read settles exactly the block's entries, each against its own register; it resends every post-grace mismatch and nothing else |
| Inverter.MismatchExhaustsAttempts | custom_components/cyg_skyline/inverter.py:186-212 | an entry with `n` attempts whose read-back never matches is still pending with `n - k` attempts after `k < n` post-grace reads. It is gone after exactly `n`, having been resent `n` times |
| Inverter.MatchRemovesAtOnce | custom_components/cyg_skyline/inverter.py:183-185 | a matching post-grace read-back removes the entry at once, without a resend |
| Inverter.GraceReadBacksChangeNothing | custom_components/cyg_skyline/inverter.py:181-182 | any number of read-backs before the grace period ends neither consume an attempt nor resend |
| Inverter.FreshWriteGivesUpAfterTen | custom_components/cyg_skyline/inverter.py:150-212 | a fresh write that never reads back is still pending with one attempt after nine post-grace reads, and gone after the tenth, with ten resends |
| Inverter.ThreeMismatchesWithBudgetThree | custom_components/cyg_skyline/inverter.py:186-212 | 500 written to 0x30BA with three attempts and read back as 400: the third mismatch removes the entry, and a fourth read resends nothing |
| Inverter.ShagPvEnergyToday | custom_components/cyg_skyline/inverter.py:88-95 | the offset becomes the reading exactly when the reading dropped and is below 1 kWh; the previous reading is always updated; the result is the reading less the offset |
| Inverter.ShagTracksRisingCounter | custom_components/cyg_skyline/inverter.py:88-95 | between two readings that do not go down, the reported energy grows by exactly their difference |
| PollCycle.ReadDevice | custom_components/cyg_skyline/controller.py:198-203 | the six reads of a device change only that inverter's pending table |
| PollCycle.ReadDeviceBlocks | custom_components/cyg_skyline/controller.py:198-203 | the blocks a device's reads return depend only on the host's responses, not on pending writes |
| PollCycle.ZeroSignatureIsZeroTotals | custom_components/cyg_skyline/controller.py:231-236 | the all-zero test on four 32-bit totals is the test on their eight registers |
| PollCycle.ValidIffCompleteAndNonZero | custom_components/cyg_skyline/controller.py:205-241 | a device is processed exactly when all six blocks are present and long enough and the counters are not all zero |
| PollCycle.WhenAPollIsAbandoned | custom_components/cyg_skyline/controller.py:205-241 | a device is only skipped when the first four blocks are sound and the grid-config or EPS block is absent, which raises AttributeError. A complete device with all-zero counters abandons the poll |
| PollCycle.Decode | custom_components/cyg_skyline/controller.py:243-336 | the decoded SoC is battery register 0 and the work mode config register 0. The PV power is non-negative and below `2·2^32/10^4` kW. The grid load is negative exactly when grid register 0 has its top bit set |
| PollCycle.GridLoadWindowIsNotSiteWindow | custom_components/cyg_skyline/controller.py:293-300 | no device's `<serial>_grid_load` window can be a site window |
| PollCycle.StepDevice | custom_components/cyg_skyline/controller.py:196-491 | one device turn leaves the site windows and everything but windows, inverters and SoC alone. An invalid device adds no sum, report or window and keeps the SoC. A valid one sets the SoC and work mode from its blocks and appends one report |
| PollCycle.SweepFrom | custom_components/cyg_skyline/controller.py:196-492 | the device loop never touches a site window, the feed-in state or the number of inverters, and only adds reports. It stops early exactly when some device from the current one on fails validation with "abandon" |
| PollCycle.PushSiteWindows | custom_components/cyg_skyline/controller.py:494-512 | the site pushes raise exactly when the averaging period is not positive |
| PollCycle.ExcessAggregateRaises | custom_components/cyg_skyline/controller.py:505-512 | the always-averaged excess insert raises exactly when its capacity is below 1 |
| PollCycle.MaybeFeedIn | custom_components/cyg_skyline/controller.py:527-534 | the feed-in update runs exactly when the last device reported mode 1, matching is on and 60 seconds have passed since the last update |
| PollCycle.Finish | custom_components/cyg_skyline/controller.py:494-546 | after the loop the poll crashes exactly when the averaging period is not positive. Otherwise the feed-in update runs exactly when its gate is open |
| PollCycle.Poll | custom_components/cyg_skyline/controller.py:185-567 | a poll keeps the inverter count, the matching flag and the tuning, and runs the feed-in update only if it completes. It is abandoned exactly when some device fails validation with "abandon" |
| PollCycle.AbandonedPollSkipsSiteUpdates | custom_components/cyg_skyline/controller.py:205-241 | an abandoned poll updates no site window and does not touch the feed-in controller |
| PollCycle.AbandonsFromIff | custom_components/cyg_skyline/controller.py:196-241 | the recursive "some device from `i` on abandons" is the same as an existential over the devices |
| PollCycle.PollAbandonedIff | custom_components/cyg_skyline/controller.py:196-241 | a poll is abandoned exactly when any device, not only the first, fails validation with "abandon" |
| PollCycle.FirstDeviceAbandons | custom_components/cyg_skyline/controller.py:196-241 | when the first device fails validation, the only change is that inverter's pending writes; no report is made |
| PollCycle.AllValidRunsToEnd | custom_components/cyg_skyline/controller.py:196-492 | when every remaining device is valid, the loop runs to the end with one report per device |
| PollCycle.AllValidEndsWithLast | custom_components/cyg_skyline/controller.py:243-422 | such a loop ends with the last device's state of charge and work mode |
| PollCycle.AllValidPoll | custom_components/cyg_skyline/controller.py:196-512 | a poll in which every device answers fully is not abandoned. It reports every device and ends with the last device's work mode and state of charge |
| PollCycle.FeedInGate | custom_components/cyg_skyline/controller.py:527-534 | a whole poll runs the feed-in update exactly when it completes with the gate open |
| PollCycle.CrashIffNoAveragingPeriod | custom_components/cyg_skyline/controller.py:505-512 | a poll that gets past the devices raises exactly when the averaging period is not positive |
| NumberEntity.ValueMultiplier | custom_components/cyg_skyline/number.py:251-256 | with parallel adjustment and more than one inverter, the multiplier times the inverter count is the declared multiplier; otherwise it is the declared multiplier |
| NumberEntity.NativeMaxValue | custom_components/cyg_skyline/number.py:212-219 | the shown maximum is the declared maximum times the inverter count with parallel adjustment, else the declared maximum |
| NumberEntity.ParallelMaximumIsPerInverterMaximum | custom_components/cyg_skyline/number.py:212-219 | the site-wide maximum converts to exactly the single-inverter register maximum: the scalings of range and value cancel |
| NumberEntity.SetNumberValue | custom_components/cyg_skyline/number.py:258-269 | the result is `None` (ZeroDivisionError) exactly for a zero multiplier. Otherwise the shown value times the multiplier is the raw register value, and the entity reports a change exactly when the shown value changed |
| NumberEntity.SetNumberValueIdempotent | custom_components/cyg_skyline/number.py:262-264 | showing the same register value twice changes nothing the second time |
| NumberEntity.AsyncSetNativeValue | custom_components/cyg_skyline/number.py:233-249 | the value already shown does nothing. Any other value runs the callback if there is one. With a register, it sends one write of `int(value·multiplier)`, records it as pending and polls. Without one, nothing is written |
| NumberEntity.WrittenValueReadsBack | custom_components/cyg_skyline/number.py:245-260 | a non-negative value written from the UI reads back at most one register step below it: shown in `(v - 1/m, v]` |
| NumberEntity.SevenKilowattsOnTwoInverters | custom_components/cyg_skyline/number.py:78-93 | the feed-in limit of a two-inverter site offers 12 kW. 7 kW is written as 3500 W to 0x30BA, and 3500 reads back as 7 kW |
| SelectEntity.FindByValue | custom_components/cyg_skyline/select.py:118-122 | the lookup finds nothing exactly when no pair's value prints as the text; otherwise it finds the name of a pair whose value does |
| SelectEntity.FindByName | custom_components/cyg_skyline/select.py:153-157 | the lookup finds nothing exactly when no pair has the name; otherwise it finds the value of a pair with that name |
| SelectEntity.MapRoundTrip | custom_components/cyg_skyline/select.py:115-157 | in a map without duplicate names or values, name → value → `str` → name and value → `str` → name → value round-trip for every pair |
| SelectEntity.WorkModeValues | custom_components/cyg_skyline/select.py:46-53 | each work mode's register value is its position in the map |
| SelectEntity.WorkModeSettingsBijective | custom_components/cyg_skyline/select.py:46-53 | the work-mode map has no duplicate name and no duplicate value |
| SelectEntity.SetSelectedOption | custom_components/cyg_skyline/select.py:115-140 | without a map the text itself is shown. With a map, a value no pair prints as shows nothing. The entity reports a change (and rewrites its state) unless it already showed an option equal to the new one, so showing nothing and again nothing still counts as a change |
| SelectEntity.NothingShownAlwaysRewrites | custom_components/cyg_skyline/select.py:126-140 | an entity that shows no option rewrites its state on every read-back, even of a value no option prints as |
| SelectEntity.AsyncSelectOption | custom_components/cyg_skyline/select.py:142-168 | the decision works as follows. Nothing happens for the shown option or a missing or non-positive register. An unparsable option without a map raises. An option the map lacks is unmapped. On 0x2100 the matching flag is always set: on for mode 5, which is written as mode 1, off for any other mode. Any other register is written the requested value |
| SelectEntity.SetRegister | custom_components/cyg_skyline/controller.py:736-745 | a UI write changes only the target inverter's pending table, and only its entry for the register, which becomes a fresh ten-attempt entry. Every other inverter is unchanged. It appends exactly one write and then polls |
| SelectEntity.EnterExcessMode | custom_components/cyg_skyline/select.py:161-174 | the excess branch turns matching on and runs one feed-in update. It raises exactly when errors are not suppressed and the update fails, and then writes nothing. Otherwise its commands are the update's own commands followed by the write of the mode, and it polls |
| SelectEntity.Perform | custom_components/cyg_skyline/select.py:142-174 | carrying out each decision: nothing for an ignored option; an exception for a bad one; matching cleared for an unmapped work mode; otherwise the matching flag as decided and the write last. Outside the excess branch it is the only command. In the excess branch only the feed-in update's own commands precede it, and those are at most one 0x30BA write (FeedIn.CommitEffects, FeedIn.NoCommitNoWrite) |
| SelectEntity.SelectOption | custom_components/cyg_skyline/select.py:142-174 | as written, choosing an option raises exactly when it is unparsable, or when it is the excess mode and the feed-in update fails |
| SelectEntity.SelectOptionSuppressed | custom_components/cyg_skyline/select.py:142-174 | with the update's failure suppressed, choosing an option raises only when it is unparsable |
| SelectEntity.WorkModeRoundTrip | custom_components/cyg_skyline/select.py:46-53 | every work mode round-trips: choosing it maps to its value, and reading that value back shows the same option |
| SelectEntity.UnknownModeShowsNothing | custom_components/cyg_skyline/select.py:115-124 | an inverter reporting a mode outside 0..5 shows no option |
| SelectEntity.MappedWorkModeAction | custom_components/cyg_skyline/select.py:161-168 | on 0x2100 a mapped value 5 is written as 1 with matching on, and any other value as itself with matching off |
| SelectEntity.WorkModeAction | custom_components/cyg_skyline/select.py:153-168 | choosing the `k`-th work mode writes mode 1 with matching on when `k` is 5, and writes `k` with matching off otherwise |
| SelectEntity.ExcessSelectionWritesFeedInPriority | custom_components/cyg_skyline/select.py:161-174 | with errors suppressed, choosing "Feed In Excess Solar" turns matching on, writes mode 1 to 0x2100 last and polls, and the poll gate opens again a minute later |
| SelectEntity.ExcessModeShowsFeedInPriority | custom_components/cyg_skyline/select.py:46-53 | an inverter in mode 1 shows "Feed In Priority", even after "Feed In Excess Solar" was chosen |
| SelectEntity.OtherModeClearsMatching | custom_components/cyg_skyline/select.py:167-174 | choosing any real inverter mode writes exactly that mode and turns matching off |
| SelectEntity.FeedInPriorityIgnoredWhileShown | custom_components/cyg_skyline/select.py:144-146 | while matching runs the select shows "Feed In Priority", so choosing "Feed In Priority" changes nothing and writes nothing |
| SelectEntity.ExcessBeforeFirstAverageWritesNothing | custom_components/cyg_skyline/select.py:161-174 | as written, choosing "Feed In Excess Solar" before any excess average exists raises and writes nothing, with matching already on |
| HostList.ParseEndpoint | custom_components/cyg_skyline/controller.py:755-758 | a piece without a colon uses the configured port. With a colon it fails exactly when the text between the first colon and the next one (or the end) is not an integer, so `"h:1:2"` gets port 1. A parsed host has no colon |
| HostList.ParseAll | custom_components/cyg_skyline/controller.py:752-758 | the list fails exactly when some piece fails; otherwise it has one endpoint per piece, each that piece's parse |
| HostList.ParseHosts | custom_components/cyg_skyline/controller.py:752 | a parsed setting has one endpoint per comma-separated piece, at least one |
| HostList.ParsedHostsArePlain | custom_components/cyg_skyline/controller.py:752-758 | every parsed host is free of spaces, commas and colons |
| HostList.PieceRoundTrip | custom_components/cyg_skyline/controller.py:755-758 | `host:port` parses back to the endpoint it was written from |
| HostList.RenderRoundTrip | custom_components/cyg_skyline/controller.py:752-758 | a list written as `host:port,host:port,...` parses back to the same endpoints, whatever the configured port |
| HostList.BareHostsUseConfiguredPort | custom_components/cyg_skyline/controller.py:752-756 | a list of bare hosts gives every host the configured port |
| HostList.BadPortFailsList | custom_components/cyg_skyline/controller.py:757 | a non-integer port anywhere fails the whole list |

## Left out

- Modbus transport (`ModbusHost`, inverter.py:16-54), the slave discovery scan in `get_identity_info` and `update_software_versions`: network I/O. Reads come in as `ReadResponse` values. Writes go out as `HostWrite` commands, whose success is not modelled because the host swallows its errors.
- ClickHouse statistics export, `start_poller`, `terminate` and the other async scheduling: HTTP I/O, timers and concurrency. One poll or one user action is modelled at a time, with an explicit `now`.
- Sensor, binary-sensor and switch entities, `__init__.py`, `config_flow.py` and entity registration: display glue. `PollCycle.DeviceReport` returns the values the poll would show.
- `set_feed_in_excess`, which persists the matching flag into the config entry options: configuration storage. The flag itself is a field of `FeedIn.Controller`.
- Display rounding (`round(x, 1|2)`) and float rounding in general: powers are exact reals.
- The sensor readings the poll shows but never feeds back (energy counters, voltages, currents, temperature, EPS switch) are left out of `PollCycle.Decode`, and so is the order in which the number and select entities are updated from the blocks.
- The "Excess Target SoC" number entity names `controller.set_excess_target_soc` as its callback, and controller.py defines no such method. `NumberEntity.AsyncSetNativeValue` models only whether a callback runs, not its effect.
- SelectEntity.Perform: for an option missing from the map, the Python still calls `set_register` with value `None`. `write_register` first records `{value: None, attempts_left: 10}` for the select's register, replacing any pending entry there, and only then calls the transport. No read-back ever equals `None`, so once the grace period ends the reconciler resends `None` on each read of that register until the ten attempts are used up (inverter.py:153-158 and 186-212). The model records no pending entry and sends nothing, because the pending table holds only integer values; it keeps only the flag change and the poll.
- Text.ParseInt: accepts an optional sign and ASCII digits only. Python's `int()` also accepts surrounding whitespace, underscores between digits and non-ASCII digits.
- HostList.ParseHosts: a bad port anywhere fails the whole list. The Python fails at that piece, after it has already scanned the hosts before it.
- PollCycle.Poll: assumes a positive poll interval and a non-negative monitoring duration (`ValidSettings`), which the shipped constants satisfy.
- Codec.RegistersToUnsigned32: requires both registers to exist. The poll reads only fixed offsets of blocks whose lengths it has already checked, so the IndexError case does not arise there.
- NumberEntity.WrittenValueReadsBack: stated for non-negative values and a positive multiplier, which all declared entities have.
- The per-device `except` in the poll is modelled only for the AttributeError of a missing grid-config or EPS block. Other exceptions in the loop body cannot arise from the modelled data once validation passes.

## Findings

| source | as written | input that shows it | evidently intended | confidence | as-written member | corrected member |
|---|---|---|---|---|---|---|
| custom_components/cyg_skyline/select.py:161-174 | choosing "Feed In Excess Solar" sets `match_feed_in_to_excess_power = True`, then awaits `update_feed_in_excess()` unguarded; that update raises (KeyError on the missing `skyline_average_excess_pv_power` window) when no excess average exists yet, so the exception leaves `async_select_option` before 0x2100 is written | a freshly constructed controller (no windows) with one inverter, the work-mode select showing nothing, option "Feed In Excess Solar" | the work mode is switched to Feed In Priority anyway and the failed update is retried by the poll, as the poll's own call to the update suppresses its exceptions (controller.py:532-534) | medium, not executed | SelectEntity.ExcessBeforeFirstAverageWritesNothing | SelectEntity.ExcessSelectionWritesFeedInPriority |
