/** One run of `Controller.poll_inverters` (controller.py): for every
    inverter, read the six register blocks (each read reconciling that
    inverter's pending writes), validate them, decode the device's readings
    and push its grid load; then push the site aggregates, run the feed-in
    controller when its gate is open, and, for a parallel system, push the
    site PV power. Entity updates are display-only and not modelled; the
    values they would show are returned as `DeviceReport`s. */
module PollCycle {
  import opened Common
  import opened Codec
  import opened Aggregator
  import opened Detector
  import opened Inverter
  import opened FeedIn

  // The six blocks read from every inverter: start address and length.
  const PowerBlock: int := 0x1001
  const PowerLength: int := 64
  const GridBlock: int := 0x1300
  const GridLength: int := 63
  const BatteryBlock: int := 0x2000
  const BatteryLength: int := 19
  const ConfigBlock: int := 0x2100
  const ConfigLength: int := 34
  const GridConfigBlock: int := 0x30B0
  const GridConfigLength: int := 12
  const EpsBlock: int := 0x1350
  const EpsLength: int := 19

  // Site-wide windows.
  const ConsumerWindow: string := "skyline_consumer_load"
  const PvWindow: string := "skyline_pv_power"
  /** The suffix of each inverter's grid-load window. */
  const GridLoadSuffix: string := "_grid_load"

  /** The constants the poll needs are sane: a positive poll interval and a
      non-negative monitoring duration. */
  predicate ValidSettings(s: Settings)
  {
    s.pollIntervalSeconds >= 1 && s.monitorDurationSeconds >= 0
  }

  /** What the Modbus host answers to each of the six reads of one device. */
  datatype DeviceResponses = DeviceResponses(
    power: ReadResponse, grid: ReadResponse, battery: ReadResponse,
    config: ReadResponse, gridConfig: ReadResponse, eps: ReadResponse)

  /** The six values `read_holding_registers` returns (`None` or a block). */
  datatype Blocks = Blocks(
    power: Option<seq<Reg>>, grid: Option<seq<Reg>>, battery: Option<seq<Reg>>,
    config: Option<seq<Reg>>, gridConfig: Option<seq<Reg>>, eps: Option<seq<Reg>>)

  datatype DeviceRead = DeviceRead(inverter: Inverter, blocks: Blocks, commands: seq<HostWrite>)

  /** The six reads, in the order the poll issues them. */
  function ReadDevice(inv: Inverter, r: DeviceResponses, now: int): (d: DeviceRead)
    ensures d.inverter == inv.(written := d.inverter.written)
  {
    var p := ReadHoldingRegisters(inv, PowerBlock, r.power, now);
    var g := ReadHoldingRegisters(p.inverter, GridBlock, r.grid, now);
    var b := ReadHoldingRegisters(g.inverter, BatteryBlock, r.battery, now);
    var c := ReadHoldingRegisters(b.inverter, ConfigBlock, r.config, now);
    var gc := ReadHoldingRegisters(c.inverter, GridConfigBlock, r.gridConfig, now);
    var e := ReadHoldingRegisters(gc.inverter, EpsBlock, r.eps, now);
    DeviceRead(e.inverter, Blocks(p.registers, g.registers, b.registers, c.registers, gc.registers, e.registers),
               p.commands + g.commands + b.commands + c.commands + gc.commands + e.commands)
  }

  /** The block a response yields, independent of any pending write. */
  function Returned(r: ReadResponse): Option<seq<Reg>>
  {
    if r.Registers? && r.regs != [] then Some(r.regs) else None
  }

  /** The blocks the six responses yield. */
  function ResponseBlocks(r: DeviceResponses): Blocks
  {
    Blocks(Returned(r.power), Returned(r.grid), Returned(r.battery),
           Returned(r.config), Returned(r.gridConfig), Returned(r.eps))
  }

  /** The blocks a device's reads return depend on the responses alone, not
      on the pending writes they settle. */
  lemma ReadDeviceBlocks(inv: Inverter, r: DeviceResponses, now: int)
    ensures ReadDevice(inv, r, now).blocks == ResponseBlocks(r)
  {
  }

  // ---------------------------------------------------------------------
  // Validation.

  /** What the poll does with one device's blocks: carry on, give up on the
      whole poll (`return`), or skip this device (an AttributeError on a
      missing grid-config or EPS block, caught per device). */
  datatype Validation = Valid | Abandon | DeviceError

  /** Grid-in, grid-out, battery-in and battery-out totals all read zero (as
      register pairs): the signature of a mis-report. */
  predicate ZeroSignature(grid: seq<Reg>, battery: seq<Reg>)
    requires |grid| >= GridLength && |battery| >= BatteryLength
  {
    && grid[6] == 0 && grid[7] == 0 && grid[8] == 0 && grid[9] == 0
    && battery[13] == 0 && battery[14] == 0 && battery[17] == 0 && battery[18] == 0
  }

  /** The register-level signature is the source's test on the four decoded
      32-bit totals. */
  lemma ZeroSignatureIsZeroTotals(grid: seq<Reg>, battery: seq<Reg>)
    requires |grid| >= GridLength && |battery| >= BatteryLength
    ensures ZeroSignature(grid, battery) <==>
      && RegistersToUnsigned32(grid, 6) == 0
      && RegistersToUnsigned32(grid, 8) == 0
      && RegistersToUnsigned32(battery, 13) == 0
      && RegistersToUnsigned32(battery, 17) == 0
  {
  }

  /** The validation `or`-chain, evaluated left to right, followed by the
      zero-signature check. A block that is `None` has no `registers`, so a
      missing grid-config or EPS block raises where its length is taken. */
  function Validate(b: Blocks): Validation
  {
    if b.power.None? || b.grid.None? || b.battery.None? || b.config.None? then Abandon
    else if |b.power.value| < PowerLength || |b.grid.value| < GridLength
         || |b.battery.value| < BatteryLength || |b.config.value| < ConfigLength then Abandon
    else if b.gridConfig.None? then DeviceError
    else if |b.gridConfig.value| < GridConfigLength then Abandon
    else if b.eps.None? then DeviceError
    else if |b.eps.value| < EpsLength then Abandon
    else if ZeroSignature(b.grid.value, b.battery.value) then Abandon
    else Valid
  }

  /** Every block present and long enough. */
  predicate Complete(b: Blocks)
  {
    && b.power.Some? && |b.power.value| >= PowerLength
    && b.grid.Some? && |b.grid.value| >= GridLength
    && b.battery.Some? && |b.battery.value| >= BatteryLength
    && b.config.Some? && |b.config.value| >= ConfigLength
    && b.gridConfig.Some? && |b.gridConfig.value| >= GridConfigLength
    && b.eps.Some? && |b.eps.value| >= EpsLength
  }

  /** A device is processed exactly when all six blocks are there and long
      enough and the counters do not show the all-zero signature. */
  lemma ValidIffCompleteAndNonZero(b: Blocks)
    ensures Validate(b) == Valid <==> Complete(b) && !ZeroSignature(b.grid.value, b.battery.value)
  {
  }

  /** A present but short block, or the zero signature, abandons the poll;
      only an absent grid-config or EPS block (with the first four blocks
      sound) is a per-device error. */
  lemma WhenAPollIsAbandoned(b: Blocks)
    ensures Validate(b) == DeviceError <==>
      && b.power.Some? && b.grid.Some? && b.battery.Some? && b.config.Some?
      && |b.power.value| >= PowerLength && |b.grid.value| >= GridLength
      && |b.battery.value| >= BatteryLength && |b.config.value| >= ConfigLength
      && (b.gridConfig.None? || (|b.gridConfig.value| >= GridConfigLength && b.eps.None?))
    ensures Complete(b) && ZeroSignature(b.grid.value, b.battery.value) ==> Validate(b) == Abandon
  {
  }

  // ---------------------------------------------------------------------
  // Decoding one device.

  /** The values the poll derives from one device's blocks, in kW. */
  datatype DeviceReport = DeviceReport(
    soc: int, pvKw: real, batteryKw: real, gridKw: real, gridTiedKw: real,
    epsKw: real, inverterLoadKw: real, workMode: int,
    importing: bool, exporting: bool)

  function Kw(tenthsOfWatts: int): real
  {
    (tenthsOfWatts as real) / 10000.0
  }

  /** The readings of a validated device; the import and export flags are
      filled in once its grid-load window has been updated. */
  function Decode(b: Blocks): (d: DeviceReport)
    requires Complete(b)
    ensures d.soc == b.battery.value[0] && d.workMode == b.config.value[0]
    ensures 0.0 <= d.pvKw < 2.0 * (TwoTo32 as real) / 10000.0
    ensures d.gridKw < 0.0 <==> b.grid.value[0] >= 0x8000
  {
    var power := b.power.value;
    var grid := b.grid.value;
    var battery := b.battery.value;
    var eps := b.eps.value;
    DeviceReport(
      battery[0],
      Kw(RegistersToUnsigned32(power, 17) + RegistersToUnsigned32(power, 21)),
      Kw(RegistersToSigned32(battery, 9)),
      Kw(RegistersToSigned32(grid, 0)),
      Kw(RegistersToSigned32(grid, 10)),
      Kw(RegistersToSigned32(eps, 3) + RegistersToSigned32(eps, 9) + RegistersToSigned32(eps, 14)),
      Kw(RegistersToSigned32(power, 2) + RegistersToSigned32(power, 7) + RegistersToSigned32(power, 12)),
      b.config.value[0],
      false, false)
  }

  // ---------------------------------------------------------------------
  // The per-device loop.

  /** The running site sums and the last work mode seen (-1 before any). */
  datatype Totals = Totals(pv: real, battery: real, grid: real, gridTied: real, eps: real,
                           inverterLoad: real, workMode: int)

  const NoTotals: Totals := Totals(0.0, 0.0, 0.0, 0.0, 0.0, 0.0, -1)

  function AddDevice(t: Totals, d: DeviceReport): Totals
  {
    Totals(t.pv + d.pvKw, t.battery + d.batteryKw, t.grid + d.gridKw, t.gridTied + d.gridTiedKw,
           t.eps + d.epsKw, t.inverterLoad + d.inverterLoadKw, d.workMode)
  }

  /** A site-wide window, as opposed to a device's grid-load window. */
  predicate IsSiteWindow(k: string)
  {
    k == ConsumerWindow || k == ExcessWindow || k == PvWindow
  }

  /** Window `k` is the same (present with the same samples, or absent) in
      both maps. */
  predicate SameWindow(a: Windows, b: Windows, k: string)
  {
    (k in a <==> k in b) && (k in a ==> a[k] == b[k])
  }

  predicate SameSiteWindows(a: Windows, b: Windows)
  {
    SameWindow(a, b, ConsumerWindow) && SameWindow(a, b, ExcessWindow) && SameWindow(a, b, PvWindow)
  }

  /** No device's grid-load window can be a site window: the character ten
      places from the end is an underscore in the former and a letter in the
      latter. */
  lemma GridLoadWindowIsNotSiteWindow(serial: string)
    ensures !IsSiteWindow(serial + GridLoadSuffix)
  {
    var k := serial + GridLoadSuffix;
    assert k[|k| - 10] == '_';
    assert ConsumerWindow[|ConsumerWindow| - 10] == 's';
    assert ExcessWindow[|ExcessWindow| - 10] == 's';
    assert PvWindow[|PvWindow| - 10] == 'e';
  }

  /** One turn of the loop for device `i`. */
  datatype Step = Step(controller: Controller, totals: Totals, validation: Validation,
                       reports: seq<DeviceReport>, commands: seq<HostWrite>)

  /** Device `i`: its six reads, then, when its blocks are valid, the state
      of charge, the sums, its grid-load push and its import/export flags. */
  function StepDevice(c: Controller, s: Settings, i: int, r: DeviceResponses,
                      t: Totals, reports: seq<DeviceReport>, commands: seq<HostWrite>, now: int): (st: Step)
    requires ValidSettings(s)
    requires 0 <= i < |c.inverters|
    ensures st.controller == c.(windows := st.controller.windows, inverters := st.controller.inverters,
                                currentSoc := st.controller.currentSoc)
    ensures |st.controller.inverters| == |c.inverters|
    ensures SameSiteWindows(st.controller.windows, c.windows)
    ensures st.validation == Validate(ResponseBlocks(r))
    ensures st.validation != Valid ==> st.totals == t && st.reports == reports
                                       && st.controller.windows == c.windows
                                       && st.controller.currentSoc == c.currentSoc
    ensures st.validation == Valid ==>
      && st.controller.currentSoc == ResponseBlocks(r).battery.value[0]
      && st.totals.workMode == ResponseBlocks(r).config.value[0]
      && |st.reports| == |reports| + 1 && st.reports[..|reports|] == reports
  {
    var inv := c.inverters[i];
    var read := ReadDevice(inv, r, now);
    ReadDeviceBlocks(inv, r, now);
    var c1 := c.(inverters := c.inverters[i := read.inverter]);
    var cmds := commands + read.commands;
    var v := Validate(read.blocks);
    if v != Valid then Step(c1, t, v, reports, cmds)
    else
      var d := Decode(read.blocks);
      var key := inv.serialNumber + GridLoadSuffix;
      GridLoadWindowIsNotSiteWindow(inv.serialNumber);
      var minCount := MinSamples(s.monitorDurationSeconds, s.pollIntervalSeconds);
      var pushed := Aggregate(c1.windows, key, d.gridKw, CeilDiv(30, s.pollIntervalSeconds),
                              minCount + 1, false, false, false, s.noAggregation);
      var window := WindowOf(pushed.windows, key);
      var report := d.(importing := AmExportingImporting(window, true, minCount, s.importExportThreshold),
                       exporting := AmExportingImporting(window, false, minCount, s.importExportThreshold));
      Step(c1.(windows := pushed.windows, currentSoc := d.soc), AddDevice(t, d), v, reports + [report], cmds)
  }

  /** The result of the per-device loop. */
  datatype Sweep = Sweep(controller: Controller, totals: Totals, abandoned: bool,
                         reports: seq<DeviceReport>, commands: seq<HostWrite>)

  /** Some device from `i` on fails validation with `Abandon`. */
  predicate AbandonsFrom(responses: seq<DeviceResponses>, i: nat)
    decreases |responses| - i
  {
    i < |responses| && (Validate(ResponseBlocks(responses[i])) == Abandon || AbandonsFrom(responses, i + 1))
  }

  lemma {:induction false} AbandonsFromIff(responses: seq<DeviceResponses>, i: nat)
    ensures AbandonsFrom(responses, i)
            <==> exists j :: i <= j < |responses| && Validate(ResponseBlocks(responses[j])) == Abandon
    decreases |responses| - i
  {
    if i < |responses| {
      AbandonsFromIff(responses, i + 1);
    }
  }

  /** Devices `i..` of the loop. A device that fails validation ends the
      whole poll; one whose grid-config or EPS block is missing is skipped. */
  function SweepFrom(c: Controller, s: Settings, responses: seq<DeviceResponses>, i: int,
                     t: Totals, reports: seq<DeviceReport>, commands: seq<HostWrite>, now: int): (sw: Sweep)
    requires ValidSettings(s)
    requires |responses| == |c.inverters| && 0 <= i <= |c.inverters|
    ensures sw.controller == c.(windows := sw.controller.windows, inverters := sw.controller.inverters,
                                currentSoc := sw.controller.currentSoc)
    ensures |sw.controller.inverters| == |c.inverters|
    ensures SameSiteWindows(sw.controller.windows, c.windows)
    ensures |reports| <= |sw.reports|
    ensures sw.abandoned <==> AbandonsFrom(responses, i)
    decreases |c.inverters| - i
  {
    if i == |c.inverters| then Sweep(c, t, false, reports, commands)
    else
      var st := StepDevice(c, s, i, responses[i], t, reports, commands, now);
      if st.validation == Abandon then Sweep(st.controller, st.totals, true, st.reports, st.commands)
      else SweepFrom(st.controller, s, responses, i + 1, st.totals, st.reports, st.commands, now)
  }

  // ---------------------------------------------------------------------
  // The whole poll.

  datatype PollOutcome =
    | Completed
    | Abandoned   // a device failed validation: `return` before any site update
    | Crashed     // the excess-power aggregate raised out of the poll

  datatype PollResult = PollResult(
    controller: Controller,
    outcome: PollOutcome,
    workMode: int,
    reports: seq<DeviceReport>,
    feedIn: Option<Decision>,
    commands: seq<HostWrite>)

  /** The consumer-load and excess-power windows after the loop. */
  datatype SitePush = SitePush(windows: Windows, raised: bool)

  function PushSiteWindows(ws: Windows, t: Totals, averagingPeriodSeconds: int, s: Settings): (p: SitePush)
    requires ValidSettings(s)
    ensures p.raised <==> averagingPeriodSeconds <= 0
  {
    var poll := s.pollIntervalSeconds;
    var consumer := Aggregate(ws, ConsumerWindow, t.eps + t.gridTied,
                              CeilDiv(60, poll), -1, false, false, false, s.noAggregation);
    var excessKw := t.pv - (t.eps + t.gridTied);
    var count := CeilDiv(averagingPeriodSeconds, poll);
    var excess := Aggregate(consumer.windows, ExcessWindow, excessKw, count, -1, true, false, false,
                            s.noAggregation);
    ExcessAggregateRaises(consumer.windows, excessKw, count, s.noAggregation);
    CeilDivPositive(averagingPeriodSeconds, poll);
    SitePush(excess.windows, excess.result.Raised?)
  }

  datatype GatedFeedIn = GatedFeedIn(controller: Controller, feedIn: Option<Decision>, commands: seq<HostWrite>)

  /** The feed-in update behind its gate; its failures are suppressed. */
  function MaybeFeedIn(c: Controller, workMode: int, s: Settings, now: int): (g: GatedFeedIn)
    ensures g.feedIn.Some? <==> FeedInDue(workMode, c, now)
    ensures g.controller.currentSoc == c.currentSoc
    ensures g.controller.matchFeedIn == c.matchFeedIn && g.controller.config == c.config
    ensures |g.controller.inverters| == |c.inverters|
  {
    if FeedInDue(workMode, c, now) then
      var f := UpdateFeedInExcess(c, s, now);
      GatedFeedIn(f.controller, Some(f.decision), f.commands)
    else GatedFeedIn(c, None, [])
  }

  /** What follows the loop when no device abandoned the poll: the consumer
      and excess windows, the gated feed-in update, and the site PV window
      for a parallel system. */
  function Finish(sw: Sweep, s: Settings, now: int): (r: PollResult)
    requires ValidSettings(s)
    ensures r.outcome != Abandoned
    ensures r.workMode == sw.totals.workMode && r.reports == sw.reports
    ensures r.controller.currentSoc == sw.controller.currentSoc
    ensures r.controller.matchFeedIn == sw.controller.matchFeedIn && r.controller.config == sw.controller.config
    ensures |r.controller.inverters| == |sw.controller.inverters|
    ensures r.outcome == Crashed <==> sw.controller.config.averagingPeriodSeconds <= 0
    ensures r.feedIn.Some? <==> r.outcome == Completed && FeedInDue(sw.totals.workMode, sw.controller, now)
  {
    var c := sw.controller;
    var t := sw.totals;
    var site := PushSiteWindows(c.windows, t, c.config.averagingPeriodSeconds, s);
    var c2 := c.(windows := site.windows);
    if site.raised then PollResult(c2, Crashed, t.workMode, sw.reports, None, sw.commands)
    else
      var g := MaybeFeedIn(c2, t.workMode, s, now);
      var c3 := g.controller;
      var c4 := if |c.inverters| > 1 then
                  c3.(windows := Aggregate(c3.windows, PvWindow, t.pv, CeilDiv(60, s.pollIntervalSeconds), -1,
                                           false, false, false, s.noAggregation).windows)
                else c3;
      PollResult(c4, Completed, t.workMode, sw.reports, g.feedIn, sw.commands + g.commands)
  }

  /** The always-aggregated insert into the excess window raises exactly
      when its capacity is below one. */
  lemma ExcessAggregateRaises(ws: Windows, value: real, count: int, noAggregation: bool)
    ensures Aggregate(ws, ExcessWindow, value, count, -1, true, false, false, noAggregation).result.Raised?
            <==> count < 1
  {
    if count >= 1 {
      InsertIsPush(ws, ExcessWindow, value, count, -1, true, false, false, noAggregation);
      PushShape(WindowOf(ws, ExcessWindow), value, count);
    }
  }

  /** `poll_inverters()` at time `now`, with `responses[i]` the answers of
      the i-th inverter's host. */
  function Poll(c: Controller, s: Settings, responses: seq<DeviceResponses>, now: int): (r: PollResult)
    requires ValidSettings(s)
    requires |responses| == |c.inverters|
    ensures |r.controller.inverters| == |c.inverters|
    ensures r.controller.matchFeedIn == c.matchFeedIn && r.controller.config == c.config
    ensures r.feedIn.Some? ==> r.outcome == Completed
    ensures r.outcome == Abandoned <==> AbandonsFrom(responses, 0)
  {
    var sw := SweepFrom(c, s, responses, 0, NoTotals, [], [], now);
    if sw.abandoned then PollResult(sw.controller, Abandoned, sw.totals.workMode, sw.reports, None, sw.commands)
    else Finish(sw, s, now)
  }

  // ---------------------------------------------------------------------
  // Properties.

  /** An abandoned poll updates no site window and leaves the feed-in
      controller alone: no site aggregate, no feed-in update, no sync. */
  lemma AbandonedPollSkipsSiteUpdates(c: Controller, s: Settings, responses: seq<DeviceResponses>, now: int)
    requires ValidSettings(s)
    requires |responses| == |c.inverters|
    requires Poll(c, s, responses, now).outcome == Abandoned
    ensures var r := Poll(c, s, responses, now);
      && r.feedIn == None
      && r.controller.lastFeedInPoll == c.lastFeedInPoll
      && r.controller.lastFeedInSync == c.lastFeedInSync
      && r.controller.lastExcess == c.lastExcess
      && SameSiteWindows(r.controller.windows, c.windows)
  {
  }

  /** When the first device fails validation nothing but that inverter's
      pending writes (settled by the six reads) changes: no window, no state
      of charge. */
  lemma FirstDeviceAbandons(c: Controller, s: Settings, responses: seq<DeviceResponses>, now: int)
    requires ValidSettings(s)
    requires |responses| == |c.inverters| >= 1
    requires Validate(ResponseBlocks(responses[0])) == Abandon
    ensures var r := Poll(c, s, responses, now);
      && r.outcome == Abandoned
      && r.controller == c.(inverters := c.inverters[0 := ReadDevice(c.inverters[0], responses[0], now).inverter])
      && r.reports == []
  {
    ReadDeviceBlocks(c.inverters[0], responses[0], now);
  }

  /** A poll is abandoned exactly when some device, not only the first,
      fails validation with `Abandon`. */
  lemma PollAbandonedIff(c: Controller, s: Settings, responses: seq<DeviceResponses>, now: int)
    requires ValidSettings(s)
    requires |responses| == |c.inverters|
    ensures Poll(c, s, responses, now).outcome == Abandoned
            <==> exists j :: 0 <= j < |responses| && Validate(ResponseBlocks(responses[j])) == Abandon
  {
    AbandonsFromIff(responses, 0);
  }

  /** When every device from `i` on is valid the loop runs to the end with
      one report per device. */
  lemma {:induction false} AllValidRunsToEnd(c: Controller, s: Settings, responses: seq<DeviceResponses>, i: int,
                                             t: Totals, reports: seq<DeviceReport>, commands: seq<HostWrite>, now: int)
    requires ValidSettings(s)
    requires |responses| == |c.inverters| && 0 <= i <= |c.inverters|
    requires ValidFrom(responses, i)
    ensures var sw := SweepFrom(c, s, responses, i, t, reports, commands, now);
      !sw.abandoned && |sw.reports| == |reports| + |c.inverters| - i
    decreases |c.inverters| - i
  {
    if i < |c.inverters| {
      var st := StepDevice(c, s, i, responses[i], t, reports, commands, now);
      AllValidRunsToEnd(st.controller, s, responses, i + 1, st.totals, st.reports, st.commands, now);
    }
  }

  /** The validated blocks of the last device. */
  function LastBlocks(responses: seq<DeviceResponses>): Blocks
    requires |responses| >= 1
  {
    ResponseBlocks(responses[|responses| - 1])
  }

  /** ... and ends with the last device's state of charge and work mode. */
  lemma {:induction false} AllValidEndsWithLast(c: Controller, s: Settings, responses: seq<DeviceResponses>, i: int,
                                                t: Totals, reports: seq<DeviceReport>, commands: seq<HostWrite>, now: int)
    requires ValidSettings(s)
    requires |responses| == |c.inverters| && 0 <= i < |c.inverters|
    requires ValidFrom(responses, i)
    requires Complete(LastBlocks(responses))
    ensures SweepFrom(c, s, responses, i, t, reports, commands, now).controller.currentSoc
            == LastBlocks(responses).battery.value[0]
    ensures SweepFrom(c, s, responses, i, t, reports, commands, now).totals.workMode
            == LastBlocks(responses).config.value[0]
    decreases |c.inverters| - i
  {
    var st := StepDevice(c, s, i, responses[i], t, reports, commands, now);
    if i + 1 < |c.inverters| {
      AllValidEndsWithLast(st.controller, s, responses, i + 1, st.totals, st.reports, st.commands, now);
    }
  }

  /** Every device from `i` on passes validation. */
  predicate ValidFrom(responses: seq<DeviceResponses>, i: nat)
    decreases |responses| - i
  {
    i >= |responses| || (Validate(ResponseBlocks(responses[i])) == Valid && ValidFrom(responses, i + 1))
  }

  lemma {:induction false} AllValidIsValidFrom(responses: seq<DeviceResponses>, i: nat)
    requires forall k :: i <= k < |responses| ==> Validate(ResponseBlocks(responses[k])) == Valid
    ensures ValidFrom(responses, i)
    decreases |responses| - i
  {
    if i < |responses| {
      AllValidIsValidFrom(responses, i + 1);
    }
  }

  /** A device that passes validation has all its blocks. */
  lemma ValidIsComplete(b: Blocks)
    requires Validate(b) == Valid
    ensures Complete(b)
  {
  }

  /** A poll in which every device answers fully gets past the loop: one
      report per device, the work mode and (unless the excess aggregate
      raises) the state of charge of the last device. */
  lemma AllValidPoll(c: Controller, s: Settings, responses: seq<DeviceResponses>, now: int)
    requires ValidSettings(s)
    requires |responses| == |c.inverters| >= 1
    requires forall k :: 0 <= k < |responses| ==> Validate(ResponseBlocks(responses[k])) == Valid
    ensures Complete(LastBlocks(responses))
    ensures var r := Poll(c, s, responses, now);
      && r.outcome != Abandoned
      && |r.reports| == |c.inverters|
      && r.workMode == LastBlocks(responses).config.value[0]
      && r.controller.currentSoc == LastBlocks(responses).battery.value[0]
  {
    ValidIsComplete(LastBlocks(responses));
    AllValidIsValidFrom(responses, 0);
    AllValidRunsToEnd(c, s, responses, 0, NoTotals, [], [], now);
    AllValidEndsWithLast(c, s, responses, 0, NoTotals, [], [], now);
  }

  /** The feed-in controller runs exactly when the poll completes with the
      gate open: the last valid device in Feed In Priority, matching on, and
      a minute since the last feed-in update. */
  lemma FeedInGate(c: Controller, s: Settings, responses: seq<DeviceResponses>, now: int)
    requires ValidSettings(s)
    requires |responses| == |c.inverters|
    ensures var r := Poll(c, s, responses, now);
      r.feedIn.Some? <==> r.outcome == Completed && FeedInDue(r.workMode, c, now)
  {
  }

  /** Once the devices are through, the poll raises exactly when the
      averaging period is not positive (the excess window's capacity would be
      below one). */
  lemma CrashIffNoAveragingPeriod(c: Controller, s: Settings, responses: seq<DeviceResponses>, now: int)
    requires ValidSettings(s)
    requires |responses| == |c.inverters|
    requires Poll(c, s, responses, now).outcome != Abandoned
    ensures Poll(c, s, responses, now).outcome == Crashed <==> c.config.averagingPeriodSeconds <= 0
  {
  }
}
