/** `Controller.update_feed_in_excess` (controller.py): the excess-solar
    feed-in controller. From the averaged excess PV power it derives a
    per-inverter feed-in limit in watts: a state-of-charge bias (only when
    there is excess), an export cap, a per-inverter split with a floor, a
    two-band hysteresis against the last committed value, and quantisation to
    50 W before writing register 0x30BA of the first inverter. */
module FeedIn {
  import opened Common
  import opened Aggregator
  import opened Inverter

  /** The window holding the site's excess PV power. */
  const ExcessWindow: string := "skyline_average_excess_pv_power"
  /** The grid feed-in limit register. */
  const FeedInRegister: int := 0x30BA
  /** Feed-in limits are written in whole multiples of this many watts. */
  const QuantumW: int := 50
  /** Minimum number of seconds between two feed-in updates from the poll. */
  const FeedInPollSeconds: int := 60
  /** The work mode ("Feed In Priority") under which the controller runs. */
  const FeedInPriorityMode: int := 1

  /** The integration-wide constants the controller reads from its constants
      module, as parameters. */
  datatype Settings = Settings(
    pollIntervalSeconds: int,
    monitorDurationSeconds: int,
    importExportThreshold: real,
    maxGridExportW: int,
    noAggregation: bool)

  /** The `excess_*` tuning attributes of the controller. */
  datatype ExcessConfig = ExcessConfig(
    targetSoc: int,
    rateSoc: real,
    minFeedInRate: int,
    rapidChangeThreshold: int,
    slowChangeThreshold: int,
    slowChangePeriodSeconds: int,
    averagingPeriodSeconds: int,
    maxSocDeviationKw: real)

  /** The values `Controller.__init__` starts from before reading options. */
  const DefaultExcessConfig: ExcessConfig := ExcessConfig(90, 0.3, 0, 500, 100, 600, 300, 3.0)

  /** The controller's state as far as the core is concerned. `lastExcess`
      and `currentSoc` use -1 for "not yet known". */
  datatype Controller = Controller(
    windows: Windows,
    inverters: seq<Inverter>,
    matchFeedIn: bool,
    lastFeedInSync: int,
    lastFeedInPoll: int,
    lastExcess: int,
    currentSoc: int,
    config: ExcessConfig)

  /** A freshly constructed controller at time `now`. */
  function NewController(inverters: seq<Inverter>, matchFeedIn: bool, config: ExcessConfig, now: int): Controller
  {
    Controller(map[], inverters, matchFeedIn, now, now, -1, -1, config)
  }

  // ---------------------------------------------------------------------
  // The pipeline, stage by stage.

  /** The state-of-charge bias in kW, `(soc - target) * rate`, limited to
      plus or minus the maximum deviation. */
  function SocBias(soc: int, cfg: ExcessConfig): (b: real)
    ensures cfg.maxSocDeviationKw >= 0.0 ==> -cfg.maxSocDeviationKw <= b <= cfg.maxSocDeviationKw
    ensures var raw := ((soc - cfg.targetSoc) as real) * cfg.rateSoc;
      && (-cfg.maxSocDeviationKw <= raw <= cfg.maxSocDeviationKw ==> b == raw)
      && (raw > cfg.maxSocDeviationKw ==> b == cfg.maxSocDeviationKw)
      && (raw <= cfg.maxSocDeviationKw && raw < -cfg.maxSocDeviationKw ==> b == -cfg.maxSocDeviationKw)
  {
    var raw := ((soc - cfg.targetSoc) as real) * cfg.rateSoc;
    if raw > cfg.maxSocDeviationKw then cfg.maxSocDeviationKw
    else if raw < 0.0 - cfg.maxSocDeviationKw then 0.0 - cfg.maxSocDeviationKw
    else raw
  }

  /** The site-wide target in kW: the mean excess, biased by the state of
      charge only when it is positive, then capped at the grid export
      limit. There is no lower clamp. */
  function TargetKw(meanExcessKw: real, soc: int, cfg: ExcessConfig, maxGridExportW: int): (kw: real)
    ensures kw <= (maxGridExportW as real) / 1000.0
    ensures meanExcessKw <= 0.0 ==> kw == MinReal(meanExcessKw, (maxGridExportW as real) / 1000.0)
    ensures meanExcessKw > 0.0 && cfg.maxSocDeviationKw >= 0.0 ==>
      var cap := (maxGridExportW as real) / 1000.0;
      MinReal(meanExcessKw - cfg.maxSocDeviationKw, cap) <= kw <= MinReal(meanExcessKw + cfg.maxSocDeviationKw, cap)
    ensures meanExcessKw > 0.0 ==> kw == MinReal(meanExcessKw + SocBias(soc, cfg), (maxGridExportW as real) / 1000.0)
  {
    var biased := if meanExcessKw > 0.0 then meanExcessKw + SocBias(soc, cfg) else meanExcessKw;
    var cap := (maxGridExportW as real) / 1000.0;
    if biased > cap then cap else biased
  }

  /** `int(max(kw * 1000 / n, min_feed_in_rate))`: the per-inverter limit in
      whole watts, never below the configured floor. */
  function PerInverterW(kw: real, inverterCount: int, minFeedInRate: int): (w: int)
    requires inverterCount >= 1
    ensures w >= minFeedInRate
    ensures var m := MaxReal(kw * 1000.0 / (inverterCount as real), minFeedInRate as real);
      m >= 0.0 ==> (w as real) <= m < (w as real) + 1.0
    ensures var m := MaxReal(kw * 1000.0 / (inverterCount as real), minFeedInRate as real);
      m < 0.0 ==> (w as real) - 1.0 < m <= (w as real)
    ensures kw * 1000.0 / (inverterCount as real) <= minFeedInRate as real ==> w == minFeedInRate
  {
    Trunc(MaxReal(kw * 1000.0 / (inverterCount as real), minFeedInRate as real))
  }

  /** `int(math.ceil(v / 50.0)) * 50`: the smallest multiple of 50 W that is
      not below `v`. */
  function Quantize(v: int): (q: int)
    ensures q % QuantumW == 0
    ensures v <= q < v + QuantumW
  {
    CeilDiv(v, QuantumW) * QuantumW
  }

  /** Why an update did or did not write a new limit. */
  datatype Decision =
    | Disabled          // feed-in matching is switched off
    | Failed            // the excess window is missing or empty, or there are no inverters
    | NoChange          // same per-inverter value as last time
    | TooSmall          // inside the slow band and above the floor
    | TooSoon           // inside the rapid band and the slow period has not elapsed
    | Commit(watts: int)

  /** The two-band hysteresis against the last committed value, then
      quantisation of the value to commit. */
  function Hysteresis(v: int, lastExcess: int, lastFeedInSync: int, now: int, cfg: ExcessConfig): (d: Decision)
    ensures d.NoChange? || d.TooSmall? || d.TooSoon? || d.Commit?
    ensures d.Commit? ==> d.watts == Quantize(v)
  {
    if lastExcess < 0 then Commit(Quantize(v))
    else
      var change := v - lastExcess;
      if change == 0 then NoChange
      else if -cfg.slowChangeThreshold < change < cfg.slowChangeThreshold && v > cfg.minFeedInRate then TooSmall
      else if -cfg.rapidChangeThreshold < change < cfg.rapidChangeThreshold
              && now - lastFeedInSync < cfg.slowChangePeriodSeconds then TooSoon
      else Commit(Quantize(v))
  }

  datatype FeedInOutcome = FeedInOutcome(controller: Controller, decision: Decision, commands: seq<HostWrite>)

  /** `update_feed_in_excess()` at time `now`. A `Failed` decision stands for
      the KeyError or ZeroDivisionError the Python raises; by then
      `lastFeedInPoll` has already been updated. */
  function UpdateFeedInExcess(c: Controller, s: Settings, now: int): (out: FeedInOutcome)
    ensures out.controller.lastFeedInPoll == now
    ensures out.controller.windows == c.windows
    ensures out.controller.matchFeedIn == c.matchFeedIn && out.controller.config == c.config
    ensures out.controller.currentSoc == c.currentSoc
    ensures |out.controller.inverters| == |c.inverters|
    ensures !c.matchFeedIn ==> out.decision == Disabled
  {
    var c1 := c.(lastFeedInPoll := now);
    if !c.matchFeedIn then FeedInOutcome(c1, Disabled, [])
    else
      var fetched := Aggregate(c.windows, ExcessWindow, 0.0, 0, -1, true, true, false, s.noAggregation);
      assert fetched.windows == c.windows;
      if !fetched.result.Value? || |c.inverters| == 0 then FeedInOutcome(c1, Failed, [])
      else
        var kw := TargetKw(fetched.result.v, c.currentSoc, c.config, s.maxGridExportW);
        var v := PerInverterW(kw, |c.inverters|, c.config.minFeedInRate);
        var d := Hysteresis(v, c.lastExcess, c.lastFeedInSync, now, c.config);
        if !d.Commit? then FeedInOutcome(c1, d, [])
        else
          var w := WriteRegister(c.inverters[0], FeedInRegister, d.watts, now, s.pollIntervalSeconds);
          var c2 := c1.(lastExcess := d.watts, lastFeedInSync := now,
                        inverters := c.inverters[0 := w.inverter]);
          FeedInOutcome(c2, d, [w.command])
  }

  /** The gate in `poll_inverters`: the last device reported Feed In
      Priority, matching is on, and a minute has passed since the last
      update. */
  predicate FeedInDue(workMode: int, c: Controller, now: int)
  {
    workMode == FeedInPriorityMode && c.matchFeedIn && now - c.lastFeedInPoll >= FeedInPollSeconds
  }

  // ---------------------------------------------------------------------
  // Properties.

  /** The bias is only ever applied to positive excess: with no excess the
      target is the (capped) mean whatever the state of charge. */
  lemma NoBiasWithoutExcess(meanExcessKw: real, soc1: int, soc2: int, cfg: ExcessConfig, maxGridExportW: int)
    requires meanExcessKw <= 0.0
    ensures TargetKw(meanExcessKw, soc1, cfg, maxGridExportW) == TargetKw(meanExcessKw, soc2, cfg, maxGridExportW)
  {
  }

  /** With a non-negative rate the bias never falls as the state of charge
      rises. */
  lemma SocBiasMonotone(soc1: int, soc2: int, cfg: ExcessConfig)
    requires cfg.rateSoc >= 0.0 && cfg.maxSocDeviationKw >= 0.0
    requires soc1 <= soc2
    ensures SocBias(soc1, cfg) <= SocBias(soc2, cfg)
  {
    var d1 := (soc1 - cfg.targetSoc) as real;
    var d2 := (soc2 - cfg.targetSoc) as real;
    assert d1 * cfg.rateSoc <= d2 * cfg.rateSoc by {
      assert (d2 - d1) * cfg.rateSoc >= 0.0;
    }
  }

  /** ... so with positive excess a fuller battery never lowers the target:
      above the target charge more is fed in, below it less. */
  lemma TargetKwMonotoneInSoc(meanExcessKw: real, soc1: int, soc2: int, cfg: ExcessConfig, maxGridExportW: int)
    requires cfg.rateSoc >= 0.0 && cfg.maxSocDeviationKw >= 0.0
    requires soc1 <= soc2
    ensures TargetKw(meanExcessKw, soc1, cfg, maxGridExportW) <= TargetKw(meanExcessKw, soc2, cfg, maxGridExportW)
  {
    SocBiasMonotone(soc1, soc2, cfg);
  }

  /** Everything the update writes when it commits: a multiple of 50 W
      within 50 W above the per-inverter value, recorded as the last excess
      with the sync time, and sent as one write of 0x30BA to the first
      inverter, which now holds a fresh pending entry for it; the other
      inverters are untouched. */
  lemma CommitEffects(c: Controller, s: Settings, now: int)
    requires UpdateFeedInExcess(c, s, now).decision.Commit?
    ensures var out := UpdateFeedInExcess(c, s, now);
      var q := out.decision.watts;
      && q % QuantumW == 0
      && c.config.minFeedInRate <= q
      && out.controller.lastExcess == q
      && out.controller.lastFeedInSync == now
      && out.commands == [HostWrite(FeedInRegister, q)]
      && |c.inverters| >= 1
      && Lookup(out.controller.inverters[0].written, FeedInRegister)
           == Some(PendingWrite(q, MaxAttempts, now + s.pollIntervalSeconds - 1))
      && out.controller.inverters[1..] == c.inverters[1..]
      && ExcessWindow in c.windows && c.windows[ExcessWindow] != []
      && q == Quantize(PerInverterW(TargetKw(Mean(c.windows[ExcessWindow]), c.currentSoc, c.config, s.maxGridExportW),
                                    |c.inverters|, c.config.minFeedInRate))
  {
    DecisionFollowsWindowMean(c, s, now);
    var fetched := Aggregate(c.windows, ExcessWindow, 0.0, 0, -1, true, true, false, s.noAggregation);
    var kw := TargetKw(fetched.result.v, c.currentSoc, c.config, s.maxGridExportW);
    var v := PerInverterW(kw, |c.inverters|, c.config.minFeedInRate);
    assert UpdateFeedInExcess(c, s, now).decision == Hysteresis(v, c.lastExcess, c.lastFeedInSync, now, c.config);
  }

  /** The decision follows the excess window: an update with matching on
      fails exactly when the window is missing or empty or there are no
      inverters, and otherwise decides on the per-inverter split of the
      biased, capped mean of every sample in the window. */
  lemma DecisionFollowsWindowMean(c: Controller, s: Settings, now: int)
    requires c.matchFeedIn
    ensures var d := UpdateFeedInExcess(c, s, now).decision;
      && (d.Failed? <==> ExcessWindow !in c.windows || c.windows[ExcessWindow] == [] || |c.inverters| == 0)
      && (!d.Failed? ==>
            d == Hysteresis(PerInverterW(TargetKw(Mean(c.windows[ExcessWindow]), c.currentSoc, c.config, s.maxGridExportW),
                                         |c.inverters|, c.config.minFeedInRate),
                            c.lastExcess, c.lastFeedInSync, now, c.config))
  {
    if ExcessWindow in c.windows && c.windows[ExcessWindow] != [] {
      AverageOfOldest(c.windows, ExcessWindow, 0.0, 0, -1, true, true, s.noAggregation);
    }
  }

  /** Without a commit nothing is written and the last excess, the sync time
      and the inverters stay as they were. */
  lemma NoCommitNoWrite(c: Controller, s: Settings, now: int)
    requires !UpdateFeedInExcess(c, s, now).decision.Commit?
    ensures var out := UpdateFeedInExcess(c, s, now);
      && out.commands == []
      && out.controller == c.(lastFeedInPoll := now)
  {
  }

  /** The per-inverter value that is compared and committed never falls
      below the floor, and the committed value is never below it either. */
  lemma CommittedAboveFloor(v: int, lastExcess: int, lastFeedInSync: int, now: int, cfg: ExcessConfig)
    requires v >= cfg.minFeedInRate
    requires Hysteresis(v, lastExcess, lastFeedInSync, now, cfg).Commit?
    ensures Hysteresis(v, lastExcess, lastFeedInSync, now, cfg).watts >= cfg.minFeedInRate
  {
  }

  /** The three refusals, each for all inputs. A per-inverter value equal
      to `lastExcess`, the last committed (quantised) value, is refused. */
  lemma NoChangeIsRefused(v: int, lastFeedInSync: int, now: int, cfg: ExcessConfig)
    requires v >= 0
    ensures Hysteresis(v, v, lastFeedInSync, now, cfg) == NoChange
  {
  }

  /** A change inside the slow band is refused while the value is above the
      floor, however long ago the last sync was. */
  lemma SmallChangeAboveFloorIsRefused(v: int, lastExcess: int, lastFeedInSync: int, now: int, cfg: ExcessConfig)
    requires lastExcess >= 0 && v != lastExcess
    requires Abs(v - lastExcess) < cfg.slowChangeThreshold
    requires v > cfg.minFeedInRate
    ensures Hysteresis(v, lastExcess, lastFeedInSync, now, cfg) == TooSmall
  {
  }

  /** Any other change inside the rapid band is refused until the slow
      period since the last sync has passed. */
  lemma ModerateChangeTooSoonIsRefused(v: int, lastExcess: int, lastFeedInSync: int, now: int, cfg: ExcessConfig)
    requires lastExcess >= 0 && v != lastExcess
    requires Abs(v - lastExcess) >= cfg.slowChangeThreshold || v <= cfg.minFeedInRate
    requires Abs(v - lastExcess) < cfg.rapidChangeThreshold
    requires now - lastFeedInSync < cfg.slowChangePeriodSeconds
    ensures Hysteresis(v, lastExcess, lastFeedInSync, now, cfg) == TooSoon
  {
  }

  /** The comparison is against the quantised value, not the value it came
      from: with a floor of 1001 W, a per-inverter 1001 W committed as
      1050 W differs from it by 49 W, is not above the floor, and so is
      committed again as 1050 W once the slow period has passed. */
  lemma OffGridFloorIsRecommitted()
    ensures var cfg := DefaultExcessConfig.(minFeedInRate := 1001);
      && Quantize(1001) == 1050
      && Hysteresis(1001, 1050, 0, 600, cfg) == Commit(1050)
  {
  }

  /** With no previous commit there is no hysteresis. */
  lemma FirstUpdateAlwaysCommits(v: int, lastExcess: int, lastFeedInSync: int, now: int, cfg: ExcessConfig)
    requires lastExcess < 0
    ensures Hysteresis(v, lastExcess, lastFeedInSync, now, cfg) == Commit(Quantize(v))
  {
  }

  /** Waiting only ever opens the gate: at any later time a decision that
      was not "too soon" is unchanged, and a "too soon" one is either still
      too soon or now commits. */
  lemma WaitingOnlyOpensTheGate(v: int, lastExcess: int, lastFeedInSync: int, now: int, later: int, cfg: ExcessConfig)
    requires now <= later
    ensures var d := Hysteresis(v, lastExcess, lastFeedInSync, now, cfg);
      var d' := Hysteresis(v, lastExcess, lastFeedInSync, later, cfg);
      && (!d.TooSoon? ==> d' == d)
      && (d.TooSoon? ==> d'.TooSoon? || d' == Commit(Quantize(v)))
  {
  }

  function Abs(x: int): int
  {
    if x < 0 then -x else x
  }

  /** A change of at least both thresholds goes through at once, however
      recently the last sync was. */
  lemma RapidChangeCommitsAtOnce(v: int, lastExcess: int, lastFeedInSync: int, now: int, cfg: ExcessConfig)
    requires lastExcess >= 0
    requires Abs(v - lastExcess) >= cfg.rapidChangeThreshold
    requires Abs(v - lastExcess) >= cfg.slowChangeThreshold
    requires v != lastExcess
    ensures Hysteresis(v, lastExcess, lastFeedInSync, now, cfg) == Commit(Quantize(v))
  {
  }

  /** A change of at least the slow threshold goes through once the slow
      period has elapsed since the last sync. */
  lemma SlowChangeCommitsAfterPeriod(v: int, lastExcess: int, lastFeedInSync: int, now: int, cfg: ExcessConfig)
    requires lastExcess >= 0 && v != lastExcess
    requires Abs(v - lastExcess) >= cfg.slowChangeThreshold
    requires now - lastFeedInSync >= cfg.slowChangePeriodSeconds
    ensures Hysteresis(v, lastExcess, lastFeedInSync, now, cfg) == Commit(Quantize(v))
  {
  }

  /** At the floor even a small change goes through once the slow period
      has elapsed: the small-change band only holds values above the floor. */
  lemma FloorIgnoresSlowBand(lastExcess: int, lastFeedInSync: int, now: int, cfg: ExcessConfig)
    requires lastExcess >= 0 && cfg.minFeedInRate != lastExcess
    requires now - lastFeedInSync >= cfg.slowChangePeriodSeconds
    ensures Hysteresis(cfg.minFeedInRate, lastExcess, lastFeedInSync, now, cfg).Commit?
  {
  }

  /** Last commit 1000 W, new value 1080 W, default thresholds: a change of
      80 W is inside the 100 W slow band and the value is above the floor of
      0 W, so nothing is written. */
  lemma EightyWattsIsTooSmall(lastFeedInSync: int, now: int)
    ensures Hysteresis(1080, 1000, lastFeedInSync, now, DefaultExcessConfig) == TooSmall
  {
  }

  /** After any update the gate stays shut for a minute. */
  lemma UpdateShutsGateForAMinute(c: Controller, s: Settings, now: int, later: int, workMode: int)
    requires later < now + FeedInPollSeconds
    ensures !FeedInDue(workMode, UpdateFeedInExcess(c, s, now).controller, later)
  {
  }

  /** A single inverter, 2.5 kW of average excess at the 90 % target state
      of charge and no previous commit: 2500 W is written. */
  lemma TwoAndAHalfKilowatts(inv: Inverter, now: int, s: Settings)
    requires s.maxGridExportW >= 2500
    ensures var c := Controller(map[ExcessWindow := [2.5]], [inv], true, now, now, -1, 90, DefaultExcessConfig);
      UpdateFeedInExcess(c, s, now).decision == Commit(2500)
  {
    var c := Controller(map[ExcessWindow := [2.5]], [inv], true, now, now, -1, 90, DefaultExcessConfig);
    var fetched := Aggregate(c.windows, ExcessWindow, 0.0, 0, -1, true, true, false, s.noAggregation);
    assert Sum([2.5]) == 2.5 by {
      assert [2.5][..0] == [];
    }
    assert fetched.result == Value(2.5);
    assert SocBias(90, DefaultExcessConfig) == 0.0;
    assert TargetKw(2.5, 90, DefaultExcessConfig, s.maxGridExportW) == 2.5;
    assert PerInverterW(2.5, 1, 0) == 2500;
    assert Quantize(2500) == 2500;
  }
}
