/** `InverterNumberEntity` (number.py): a numeric inverter setting shown in
    Home Assistant units and stored in a register in device units. On a
    parallel system a per-inverter power limit is shown as the site total:
    the displayed maximum is multiplied by the number of inverters and the
    value-to-register factor divided by it. */
module NumberEntity {
  import opened Common
  import opened Inverter

  /** How one number entity is declared. `register` is `None` for an entity
      that only calls back into the controller. */
  datatype NumberConfig = NumberConfig(
    register: Option<int>,
    minValue: real,
    maxValue: real,
    valueMultiplier: real,
    adjustForParallel: bool,
    hasCallback: bool)

  /** The entity's state: its declaration, the number of inverters on the
      controller, and the last value confirmed by a poll (`None` until the
      first). */
  datatype Number = Number(config: NumberConfig, inverterCount: int, currentValue: Option<real>)

  /** `get_value_multiplier()`: register units per displayed unit. */
  function ValueMultiplier(e: Number): (m: real)
    ensures e.config.adjustForParallel && e.inverterCount > 1 ==>
      m * (e.inverterCount as real) == e.config.valueMultiplier
    ensures !(e.config.adjustForParallel && e.inverterCount > 1) ==> m == e.config.valueMultiplier
  {
    if e.config.adjustForParallel && e.inverterCount > 1 then
      e.config.valueMultiplier / (e.inverterCount as real)
    else e.config.valueMultiplier
  }

  /** The `native_max_value` set in `__init__`. */
  function NativeMaxValue(e: Number): (mx: real)
    ensures e.config.adjustForParallel ==> mx == e.config.maxValue * (e.inverterCount as real)
    ensures !e.config.adjustForParallel ==> mx == e.config.maxValue
  {
    if e.config.adjustForParallel then e.config.maxValue * (e.inverterCount as real)
    else e.config.maxValue
  }

  /** The site-wide maximum a parallel entity offers converts to exactly the
      single-inverter register maximum: the scaling of the range and of the
      value cancel out. */
  lemma ParallelMaximumIsPerInverterMaximum(e: Number)
    requires e.inverterCount >= 1
    ensures NativeMaxValue(e) * ValueMultiplier(e) == e.config.maxValue * e.config.valueMultiplier
  {
    if e.config.adjustForParallel && e.inverterCount > 1 {
      var n := e.inverterCount as real;
      assert ValueMultiplier(e) * n == e.config.valueMultiplier;
      calc {
        NativeMaxValue(e) * ValueMultiplier(e);
        (e.config.maxValue * n) * ValueMultiplier(e);
        e.config.maxValue * (ValueMultiplier(e) * n);
      }
    }
  }

  /** What a poll's read-back does to the entity: `changed` is false when the
      displayed value is already the current one. `None` stands for the
      ZeroDivisionError of a zero multiplier. */
  datatype Shown = Shown(entity: Number, changed: bool)

  /** `set_number_value(raw)`: show the register value in displayed units,
      unless it is what is already shown. */
  function SetNumberValue(e: Number, raw: int): (r: Option<Shown>)
    ensures r.None? <==> ValueMultiplier(e) == 0.0
    ensures r.Some? ==> r.value.entity.config == e.config && r.value.entity.inverterCount == e.inverterCount
    ensures r.Some? ==>
      r.value.entity.currentValue.Some? && r.value.entity.currentValue.value * ValueMultiplier(e) == raw as real
    ensures r.Some? ==> (r.value.changed <==> e.currentValue != r.value.entity.currentValue)
  {
    var m := ValueMultiplier(e);
    if m == 0.0 then None
    else
      var v := (raw as real) / m;
      if e.currentValue == Some(v) then Some(Shown(e, false))
      else Some(Shown(e.(currentValue := Some(v)), true))
  }

  /** Showing the same register value twice changes nothing the second
      time. */
  lemma SetNumberValueIdempotent(e: Number, raw: int)
    requires ValueMultiplier(e) != 0.0
    ensures var first := SetNumberValue(e, raw).value.entity;
      SetNumberValue(first, raw) == Some(Shown(first, false))
  {
  }

  /** What a user change does. */
  datatype Change = Change(inverter: Inverter, commands: seq<HostWrite>, callbackCalled: bool, pollAfter: bool)

  /** The register value a displayed value is written as:
      `int(value * get_value_multiplier())`. */
  function RegisterValue(e: Number, value: real): int
  {
    Trunc(value * ValueMultiplier(e))
  }

  /** `async_set_native_value(value)` on the entity's inverter at time
      `now`: nothing when the value is the one already shown; otherwise the
      callback (if any) runs and, for an entity with a register, the
      converted value is written through the controller, which then polls.
      The shown value itself is left for the next poll to confirm. */
  function AsyncSetNativeValue(e: Number, inv: Inverter, value: real, now: int, pollIntervalSeconds: int): (ch: Change)
    ensures e.currentValue == Some(value) ==> ch == Change(inv, [], false, false)
    ensures e.currentValue != Some(value) ==> ch.callbackCalled == e.config.hasCallback
    ensures e.currentValue != Some(value) && e.config.register.Some? ==>
      && ch.commands == [HostWrite(e.config.register.value, RegisterValue(e, value))]
      && Lookup(ch.inverter.written, e.config.register.value)
           == Some(PendingWrite(RegisterValue(e, value), MaxAttempts, now + pollIntervalSeconds - 1))
      && ch.pollAfter
    ensures e.config.register.None? ==> ch.commands == [] && ch.inverter == inv && !ch.pollAfter
  {
    if e.currentValue == Some(value) then Change(inv, [], false, false)
    else if e.config.register.None? then Change(inv, [], e.config.hasCallback, false)
    else
      var w := WriteRegister(inv, e.config.register.value, RegisterValue(e, value), now, pollIntervalSeconds);
      Change(w.inverter, [w.command], e.config.hasCallback, true)
  }

  /** A value written from the UI and read back by the next poll is shown
      as at most one register step below what was entered: with a positive
      multiplier `m` and a non-negative value `v`, the shown value lies in
      `(v - 1/m, v]`. */
  lemma WrittenValueReadsBack(e: Number, value: real)
    requires ValueMultiplier(e) > 0.0 && value >= 0.0
    ensures var m := ValueMultiplier(e);
      var shown := SetNumberValue(e, RegisterValue(e, value)).value.entity.currentValue.value;
      value - 1.0 / m < shown <= value
  {
    var m := ValueMultiplier(e);
    var raw := RegisterValue(e, value);
    var shown := SetNumberValue(e, raw).value.entity.currentValue.value;
    assert shown * m == raw as real;
    assert (raw as real) <= value * m < (raw as real) + 1.0;
    assert shown * m <= value * m;
    assert value * m - 1.0 < shown * m;
    assert (value - 1.0 / m) * m == value * m - 1.0;
  }

  /** The grid feed-in limit of a two-inverter system (shown 0..12 kW,
      multiplier 1000/2): 7 kW is written as 3500 W to its inverter's
      0x30BA, and 3500 read back shows 7 kW again. */
  lemma SevenKilowattsOnTwoInverters(inv: Inverter, now: int)
    ensures var e := Number(NumberConfig(Some(0x30BA), 0.0, 6.0, 1000.0, true, false), 2, None);
      && NativeMaxValue(e) == 12.0
      && AsyncSetNativeValue(e, inv, 7.0, now, 10).commands == [HostWrite(0x30BA, 3500)]
      && SetNumberValue(e, 3500).value.entity.currentValue == Some(7.0)
  {
    var e := Number(NumberConfig(Some(0x30BA), 0.0, 6.0, 1000.0, true, false), 2, None);
    assert ValueMultiplier(e) == 500.0;
    assert RegisterValue(e, 7.0) == 3500;
  }
}
