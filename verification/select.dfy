/** `InverterSelectEntity` (select.py): an inverter setting chosen from a
    list of named options, each mapped to the register value that selects
    it. The hybrid work mode is the one select the integration declares; its
    sixth option, "Feed In Excess Solar", is not an inverter mode at all:
    it turns on the controller's excess matching and puts the inverter in
    Feed In Priority. */
module SelectEntity {
  import opened Common
  import opened Text
  import opened Inverter
  import opened FeedIn

  /** One `[option, register value]` pair of a settings map. */
  datatype Setting = Setting(name: string, value: int)

  /** The hybrid work mode register and the pseudo-mode that stands for
      excess matching. */
  const WorkModeRegister: int := 0x2100
  const ExcessMode: int := 5
  const ExcessOption: string := "Feed In Excess Solar"
  const FeedInPriorityOption: string := "Feed In Priority"

  /** The hybrid work mode's settings map. */
  const WorkModeSettings: seq<Setting> := [
    Setting("Self Consumption Priority", 0),
    Setting(FeedInPriorityOption, FeedInPriorityMode),
    Setting("Time based Control", 2),
    Setting("Backup Supply", 3),
    Setting("Battery Discharge", 4),
    Setting(ExcessOption, ExcessMode)
  ]

  /** A select entity: its register (if any), its settings map (if any) and
      the option last confirmed by a poll (`None` until the first, and after
      a register value the map does not know). */
  datatype Select = Select(register: Option<int>, settings: Option<seq<Setting>>, currentValue: Option<string>)

  /** The hybrid work mode select as each inverter's entity starts out. */
  const WorkModeSelect: Select := Select(Some(WorkModeRegister), Some(WorkModeSettings), None)

  /** The first option whose register value prints as `s`. */
  function FindByValue(settings: seq<Setting>, s: string): (r: Option<string>)
    ensures r.None? <==> forall k :: 0 <= k < |settings| ==> IntToString(settings[k].value) != s
    ensures r.Some? ==>
      exists k :: 0 <= k < |settings| && settings[k].name == r.value && IntToString(settings[k].value) == s
  {
    if settings == [] then None
    else if IntToString(settings[0].value) == s then Some(settings[0].name)
    else
      var r := FindByValue(settings[1..], s);
      assert forall k :: 1 <= k < |settings| ==> settings[k] == settings[1..][k - 1];
      r
  }

  /** The register value of the first option named `option`. */
  function FindByName(settings: seq<Setting>, option: string): (r: Option<int>)
    ensures r.None? <==> forall k :: 0 <= k < |settings| ==> settings[k].name != option
    ensures r.Some? ==>
      exists k :: 0 <= k < |settings| && settings[k].name == option && settings[k].value == r.value
  {
    if settings == [] then None
    else if settings[0].name == option then Some(settings[0].value)
    else
      var r := FindByName(settings[1..], option);
      assert forall k :: 1 <= k < |settings| ==> settings[k] == settings[1..][k - 1];
      r
  }

  /** No two options share a name and no two share a register value. */
  predicate Bijective(settings: seq<Setting>)
  {
    forall i, j :: 0 <= i < j < |settings| ==>
      settings[i].name != settings[j].name && settings[i].value != settings[j].value
  }

  /** In a map without duplicates, the lookups in the two directions are
      inverse to each other on every pair. */
  lemma {:induction false} MapRoundTrip(settings: seq<Setting>, k: int)
    requires Bijective(settings)
    requires 0 <= k < |settings|
    ensures FindByName(settings, settings[k].name) == Some(settings[k].value)
    ensures FindByValue(settings, IntToString(settings[k].value)) == Some(settings[k].name)
  {
    if k > 0 {
      var tail := settings[1..];
      assert tail[k - 1] == settings[k];
      assert Bijective(tail) by {
        forall i, j | 0 <= i < j < |tail|
          ensures tail[i].name != tail[j].name && tail[i].value != tail[j].value
        {
          assert tail[i] == settings[i + 1] && tail[j] == settings[j + 1];
        }
      }
      MapRoundTrip(tail, k - 1);
      assert settings[0].name != settings[k].name;
      if IntToString(settings[0].value) == IntToString(settings[k].value) {
        IntToStringInjective(settings[0].value, settings[k].value);
      }
    }
  }

  /** Each work mode's register value is its position in the map. */
  lemma WorkModeValues()
    ensures forall k :: 0 <= k < |WorkModeSettings| ==> WorkModeSettings[k].value == k
  {
  }

  lemma WorkModeSettingsBijective()
    ensures Bijective(WorkModeSettings)
  {
    var w := WorkModeSettings;
    WorkModeValues();
    assert |w[0].name| == 25 && |w[1].name| == 16 && |w[2].name| == 18;
    assert |w[3].name| == 13 && |w[4].name| == 17 && |w[5].name| == 20;
    forall i, j | 0 <= i < j < |w| ensures w[i].name != w[j].name && w[i].value != w[j].value {
      assert |w[i].name| != |w[j].name|;
    }
  }

  /** A poll's read-back: `set_selected_option(str(register value))`. */
  datatype Shown = Shown(entity: Select, changed: bool)

  /** `set_selected_option(new_value)`: with a map, the option whose value
      prints as `newValue` (or `None` when there is none); without one, the
      text itself. Only a shown option that equals the new one is left
      alone: from no option to no option still rewrites the state. */
  function SetSelectedOption(e: Select, newValue: string): (r: Shown)
    ensures r.entity.register == e.register && r.entity.settings == e.settings
    ensures e.settings.None? ==> r.entity.currentValue == Some(newValue)
    ensures e.settings.Some? ==>
      ((forall k :: 0 <= k < |e.settings.value| ==> IntToString(e.settings.value[k].value) != newValue)
       ==> r.entity.currentValue.None?)
    ensures r.changed <==> !(e.currentValue.Some? && r.entity.currentValue == e.currentValue)
    ensures !r.changed ==> r.entity == e
  {
    var value := if e.settings.Some? then FindByValue(e.settings.value, newValue) else Some(newValue);
    if e.currentValue.Some? && e.currentValue == value then Shown(e, false)
    else Shown(e.(currentValue := value), true)
  }

  /** What a user choice asks of the controller. */
  datatype SelectAction =
    | Ignored                 // the option is already shown, or there is no register
    | BadOption               // no map and `int(option)` raises ValueError
    | Unmapped(clearsMatch: bool) // the map has no such option
    | WriteOption(register: int, value: int, matchFeedIn: Option<bool>)

  /** The register value the user's option stands for, before the
      excess-mode substitution. */
  function RequestedValue(e: Select, option: string): Option<int>
  {
    if e.settings.Some? then FindByName(e.settings.value, option) else ParseInt(option)
  }

  /** The decision part of `async_select_option(option)`. On the work mode
      register, mode 5 turns matching on and is written as mode 1; any other
      mode turns matching off. */
  function AsyncSelectOption(e: Select, option: string): (a: SelectAction)
    ensures e.currentValue == Some(option) || e.register.None? || e.register.value <= 0 ==> a == Ignored
    ensures a.BadOption? <==> !a.Ignored? && e.settings.None? && ParseInt(option).None?
    ensures a.Unmapped? <==> !a.Ignored? && e.settings.Some? && (forall k :: 0 <= k < |e.settings.value| ==>
                                                                 e.settings.value[k].name != option)
    ensures a.WriteOption? ==> a.register == e.register.value
    ensures a.WriteOption? ==> (a.matchFeedIn.Some? <==> a.register == WorkModeRegister)
    ensures a.WriteOption? && a.matchFeedIn == Some(true) ==> a.value == FeedInPriorityMode
    ensures a.WriteOption? && a.matchFeedIn != Some(true) ==> RequestedValue(e, option) == Some(a.value)
  {
    if e.currentValue.Some? && e.currentValue == Some(option) then Ignored
    else if e.register.None? || e.register.value <= 0 then Ignored
    else
      var reg := e.register.value;
      match RequestedValue(e, option)
      case None => if e.settings.None? then BadOption else Unmapped(reg == WorkModeRegister)
      case Some(v) =>
        if reg != WorkModeRegister then WriteOption(reg, v, None)
        else if v == ExcessMode then WriteOption(reg, FeedInPriorityMode, Some(true))
        else WriteOption(reg, v, Some(false))
  }

  /** What a user choice does to the controller. `raised` stands for an
      exception leaving `async_select_option`; `pollAfter` for the poll
      `set_register` runs after writing. */
  datatype SelectResult = SelectResult(controller: Controller, raised: bool, commands: seq<HostWrite>, pollAfter: bool)

  /** `controller.set_register(inverter, register, value)` on inverter `idx`,
      after the commands already issued. */
  function SetRegister(c: Controller, idx: int, register: int, value: int, s: Settings, now: int,
                       before: seq<HostWrite>): (r: SelectResult)
    requires 0 <= idx < |c.inverters|
    ensures !r.raised && r.pollAfter
    ensures r.commands == before + [HostWrite(register, value)]
    ensures |r.controller.inverters| == |c.inverters|
    ensures Lookup(r.controller.inverters[idx].written, register)
              == Some(PendingWrite(value, MaxAttempts, now + s.pollIntervalSeconds - 1))
    ensures r.controller == c.(inverters := r.controller.inverters)
    ensures forall j :: 0 <= j < |c.inverters| && j != idx ==> r.controller.inverters[j] == c.inverters[j]
    ensures r.controller.inverters[idx] == c.inverters[idx].(written := r.controller.inverters[idx].written)
    ensures forall a :: a != register ==>
      Lookup(r.controller.inverters[idx].written, a) == Lookup(c.inverters[idx].written, a)
  {
    var w := WriteRegister(c.inverters[idx], register, value, now, s.pollIntervalSeconds);
    SelectResult(c.(inverters := c.inverters[idx := w.inverter]), false, before + [w.command], true)
  }

  /** The excess branch on inverter `idx`: matching on, one excess update,
      then mode `v` written to `reg`. When `suppressFeedInErrors` is false,
      as in select.py, a failing excess update propagates out before the
      work mode is written; when true, the failure is swallowed the way the
      poll loop swallows it. */
  function EnterExcessMode(c: Controller, idx: int, reg: int, v: int, s: Settings, now: int,
                           suppressFeedInErrors: bool): (r: SelectResult)
    requires 0 <= idx < |c.inverters|
    ensures r.controller.windows == c.windows && r.controller.config == c.config
    ensures r.controller.currentSoc == c.currentSoc
    ensures |r.controller.inverters| == |c.inverters|
    ensures r.controller.matchFeedIn && r.controller.lastFeedInPoll == now
    ensures r.raised <==> !suppressFeedInErrors && UpdateFeedInExcess(c.(matchFeedIn := true), s, now).decision.Failed?
    ensures r.raised ==> r.commands == [] && !r.pollAfter
    ensures !r.raised ==>
      && r.pollAfter
      && |r.commands| >= 1 && r.commands[|r.commands| - 1] == HostWrite(reg, v)
      && r.commands[..|r.commands| - 1] == UpdateFeedInExcess(c.(matchFeedIn := true), s, now).commands
      && Lookup(r.controller.inverters[idx].written, reg)
           == Some(PendingWrite(v, MaxAttempts, now + s.pollIntervalSeconds - 1))
  {
    var f := UpdateFeedInExcess(c.(matchFeedIn := true), s, now);
    if f.decision.Failed? && !suppressFeedInErrors then SelectResult(f.controller, true, [], false)
    else
      var r := SetRegister(f.controller, idx, reg, v, s, now, f.commands);
      assert r.commands[..|r.commands| - 1] == f.commands;
      r
  }

  /** Carrying out a user choice on inverter `idx`. */
  function Perform(c: Controller, idx: int, a: SelectAction, s: Settings, now: int,
                   suppressFeedInErrors: bool): (r: SelectResult)
    requires 0 <= idx < |c.inverters|
    ensures r.controller.windows == c.windows && r.controller.config == c.config
    ensures r.controller.currentSoc == c.currentSoc
    ensures |r.controller.inverters| == |c.inverters|
    ensures a.Ignored? ==> r == SelectResult(c, false, [], false)
    ensures a.BadOption? ==> r == SelectResult(c, true, [], false)
    ensures a.Unmapped? ==> !r.raised && r.commands == [] && r.pollAfter
    ensures a.Unmapped? ==> r.controller.matchFeedIn == (c.matchFeedIn && !a.clearsMatch)
    ensures a.WriteOption? && a.matchFeedIn.Some? ==> r.controller.matchFeedIn == a.matchFeedIn.value
    ensures a.WriteOption? && a.matchFeedIn.None? ==> r.controller.matchFeedIn == c.matchFeedIn
    ensures a.WriteOption? && !r.raised ==>
      && r.pollAfter
      && |r.commands| >= 1 && r.commands[|r.commands| - 1] == HostWrite(a.register, a.value)
      && Lookup(r.controller.inverters[idx].written, a.register)
           == Some(PendingWrite(a.value, MaxAttempts, now + s.pollIntervalSeconds - 1))
    ensures a.WriteOption? && a.matchFeedIn != Some(true) ==> !r.raised && r.commands == [HostWrite(a.register, a.value)]
    ensures a.WriteOption? && a.matchFeedIn == Some(true) ==> r.controller.lastFeedInPoll == now
    ensures a.WriteOption? && a.matchFeedIn == Some(true) && !r.raised ==>
      r.commands[..|r.commands| - 1] == UpdateFeedInExcess(c.(matchFeedIn := true), s, now).commands
    ensures a.WriteOption? && a.matchFeedIn == Some(true) ==>
      (r.raised <==> !suppressFeedInErrors && UpdateFeedInExcess(c.(matchFeedIn := true), s, now).decision.Failed?)
    ensures r.raised ==> r.commands == [] && !r.pollAfter
  {
    match a
    case Ignored => SelectResult(c, false, [], false)
    case BadOption => SelectResult(c, true, [], false)
    case Unmapped(clears) => SelectResult(if clears then c.(matchFeedIn := false) else c, false, [], true)
    case WriteOption(reg, v, flag) =>
      if flag == Some(true) then EnterExcessMode(c, idx, reg, v, s, now, suppressFeedInErrors)
      else
        var c1 := if flag == Some(false) then c.(matchFeedIn := false) else c;
        SetRegister(c1, idx, reg, v, s, now, [])
  }

  /** `async_select_option(option)` as select.py writes it. */
  function SelectOption(c: Controller, idx: int, e: Select, option: string, s: Settings, now: int): (r: SelectResult)
    requires 0 <= idx < |c.inverters|
    ensures r.raised <==>
      || AsyncSelectOption(e, option).BadOption?
      || (AsyncSelectOption(e, option) == WriteOption(WorkModeRegister, FeedInPriorityMode, Some(true))
          && UpdateFeedInExcess(c.(matchFeedIn := true), s, now).decision.Failed?)
  {
    Perform(c, idx, AsyncSelectOption(e, option), s, now, false)
  }

  /** `async_select_option(option)` with a failing excess update swallowed,
      so that the work mode is always written. */
  function SelectOptionSuppressed(c: Controller, idx: int, e: Select, option: string, s: Settings, now: int): (r: SelectResult)
    requires 0 <= idx < |c.inverters|
    ensures r.raised <==> AsyncSelectOption(e, option).BadOption?
  {
    Perform(c, idx, AsyncSelectOption(e, option), s, now, true)
  }

  // ---------------------------------------------------------------------
  // The work mode select.

  /** Every work mode round-trips: choosing an option writes its value, and
      reading that value back shows the same option. */
  lemma WorkModeRoundTrip(k: int)
    requires 0 <= k < |WorkModeSettings|
    ensures FindByName(WorkModeSettings, WorkModeSettings[k].name) == Some(WorkModeSettings[k].value)
    ensures SetSelectedOption(WorkModeSelect, IntToString(WorkModeSettings[k].value)).entity.currentValue
              == Some(WorkModeSettings[k].name)
  {
    WorkModeSettingsBijective();
    MapRoundTrip(WorkModeSettings, k);
  }

  /** Only a shown option equal to the new one is skipped: an entity that
      shows nothing still rewrites its state on every read-back, even of a
      value that no option prints as. */
  lemma NothingShownAlwaysRewrites(e: Select, newValue: string)
    requires e.currentValue.None?
    ensures SetSelectedOption(e, newValue).changed
  {
  }

  /** An inverter reporting a mode outside 0..5 shows no option. */
  lemma UnknownModeShowsNothing(e: Select, mode: int)
    requires e.settings == Some(WorkModeSettings)
    requires mode < 0 || mode > 5
    ensures SetSelectedOption(e, IntToString(mode)).entity.currentValue.None?
  {
    WorkModeValues();
    forall k | 0 <= k < |WorkModeSettings| ensures IntToString(WorkModeSettings[k].value) != IntToString(mode) {
      if IntToString(k) == IntToString(mode) {
        IntToStringInjective(k, mode);
      }
    }
  }

  /** On the work mode register, a mapped value 5 becomes mode 1 with
      matching on, and any other mapped value is written as is with matching
      off. */
  lemma MappedWorkModeAction(e: Select, option: string, v: int)
    requires e.register == Some(WorkModeRegister) && e.currentValue != Some(option)
    requires RequestedValue(e, option) == Some(v)
    ensures AsyncSelectOption(e, option)
      == if v == ExcessMode then WriteOption(WorkModeRegister, FeedInPriorityMode, Some(true))
         else WriteOption(WorkModeRegister, v, Some(false))
  {
  }

  /** What choosing the `k`-th work mode asks for: mode 5 becomes mode 1
      with matching on, every other mode is written as is with matching
      off. */
  lemma WorkModeAction(e: Select, k: int)
    requires e.register == Some(WorkModeRegister) && e.settings == Some(WorkModeSettings)
    requires 0 <= k < |WorkModeSettings| && e.currentValue != Some(WorkModeSettings[k].name)
    ensures AsyncSelectOption(e, WorkModeSettings[k].name)
      == if k == ExcessMode then WriteOption(WorkModeRegister, FeedInPriorityMode, Some(true))
         else WriteOption(WorkModeRegister, k, Some(false))
  {
    WorkModeRoundTrip(k);
    WorkModeValues();
    MappedWorkModeAction(e, WorkModeSettings[k].name, k);
  }

  /** Choosing "Feed In Excess Solar" on a work mode select that is not
      showing it turns matching on, writes Feed In Priority to 0x2100 and
      polls; from a minute on the poll loop runs the excess update again. */
  lemma ExcessSelectionWritesFeedInPriority(c: Controller, idx: int, e: Select, s: Settings, now: int, later: int)
    requires 0 <= idx < |c.inverters|
    requires e.register == Some(WorkModeRegister) && e.settings == Some(WorkModeSettings)
    requires e.currentValue != Some(ExcessOption)
    requires later >= now + FeedInPollSeconds
    ensures var r := SelectOptionSuppressed(c, idx, e, ExcessOption, s, now);
      && !r.raised && r.pollAfter
      && r.controller.matchFeedIn
      && r.commands[|r.commands| - 1] == HostWrite(WorkModeRegister, FeedInPriorityMode)
      && FeedInDue(FeedInPriorityMode, r.controller, later)
  {
    WorkModeAction(e, 5);
  }

  /** Once the inverter reports mode 1, the work mode select shows "Feed In
      Priority", not the "Feed In Excess Solar" that was chosen. */
  lemma ExcessModeShowsFeedInPriority(e: Select)
    requires e.settings == Some(WorkModeSettings)
    ensures SetSelectedOption(e, IntToString(FeedInPriorityMode)).entity.currentValue == Some(FeedInPriorityOption)
  {
    WorkModeRoundTrip(1);
  }

  /** Choosing any real inverter mode writes that mode and turns matching
      off. */
  lemma OtherModeClearsMatching(c: Controller, idx: int, e: Select, k: int, s: Settings, now: int)
    requires 0 <= idx < |c.inverters|
    requires e.register == Some(WorkModeRegister) && e.settings == Some(WorkModeSettings)
    requires 0 <= k < ExcessMode && e.currentValue != Some(WorkModeSettings[k].name)
    ensures var r := SelectOption(c, idx, e, WorkModeSettings[k].name, s, now);
      && !r.raised && !r.controller.matchFeedIn
      && r.commands == [HostWrite(WorkModeRegister, k)]
  {
    WorkModeAction(e, k);
  }

  /** While matching runs, the select shows "Feed In Priority", so choosing
      "Feed In Priority" from it is taken as no change: nothing is written
      and matching stays on. */
  lemma FeedInPriorityIgnoredWhileShown(c: Controller, idx: int, e: Select, s: Settings, now: int)
    requires 0 <= idx < |c.inverters|
    requires e.currentValue == Some(FeedInPriorityOption)
    ensures SelectOption(c, idx, e, FeedInPriorityOption, s, now) == SelectResult(c, false, [], false)
  {
  }

  /** Before any poll has completed there is no excess average, so the
      excess update fails; as written, the exception leaves
      `async_select_option` before 0x2100 is written, although matching has
      already been turned on. */
  lemma ExcessBeforeFirstAverageWritesNothing(invs: seq<Inverter>, cfg: ExcessConfig, s: Settings, now: int)
    requires |invs| >= 1
    ensures var r := SelectOption(NewController(invs, false, cfg, now), 0, WorkModeSelect, ExcessOption, s, now);
      && r.raised && r.commands == [] && !r.pollAfter
      && r.controller.matchFeedIn
  {
    WorkModeAction(WorkModeSelect, 5);
  }
}
