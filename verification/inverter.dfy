/** The `Inverter` class of inverter.py without its transport: the table of
    optimistic register writes awaiting confirmation, its reconciliation
    against every successful block read, and the PV-energy-today offset
    correction. The Modbus host is a parameter: a read arrives as a
    `ReadResponse`, and every write the inverter would send is returned as a
    `HostWrite` command. */
module Inverter {
  import opened Common
  import opened Codec

  /** Mismatched read-backs tolerated before a write is abandoned. */
  const MaxAttempts: int := 10

  /** One entry of `_written_registers`: the value written, the retries left,
      and the time from which a read-back is trusted. */
  datatype PendingWrite = PendingWrite(value: int, attemptsLeft: int, from: int)

  /** `_written_registers`: register address to its pending write. */
  type WrittenRegisters = map<int, PendingWrite>

  /** A `write_register` command sent to the Modbus host for this device. */
  datatype HostWrite = HostWrite(register: int, value: int)

  datatype Inverter = Inverter(
    serialNumber: string,
    modelNumber: string,
    slaveAddress: int,
    written: WrittenRegisters,
    previousPvEnergyToday: real,
    pvEnergyTodayOffset: real)

  /** `Inverter.__init__`: nothing pending, both energy trackers at zero. */
  function NewInverter(serialNumber: string, modelNumber: string, slaveAddress: int): Inverter
  {
    Inverter(serialNumber, modelNumber, slaveAddress, map[], 0.0, 0.0)
  }

  function Lookup(written: WrittenRegisters, address: int): Option<PendingWrite>
  {
    if address in written then Some(written[address]) else None
  }

  // ---------------------------------------------------------------------
  // Recording a write.

  datatype WriteResult = WriteResult(inverter: Inverter, command: HostWrite)

  /** `Inverter.write_register(register, value)` at time `now`: the entry for
      `register` is created or replaced (last write wins) with the full retry
      budget and a grace period ending one second before the next poll, and
      the write goes out to the host. */
  function WriteRegister(inv: Inverter, register: int, value: int, now: int,
                         pollIntervalSeconds: int): (r: WriteResult)
    ensures Lookup(r.inverter.written, register)
            == Some(PendingWrite(value, MaxAttempts, now + pollIntervalSeconds - 1))
    ensures forall a :: a != register ==> Lookup(r.inverter.written, a) == Lookup(inv.written, a)
    ensures r.inverter == inv.(written := r.inverter.written)
    ensures r.command == HostWrite(register, value)
  {
    var entry := PendingWrite(value, MaxAttempts, now + pollIntervalSeconds - 1);
    WriteResult(inv.(written := inv.written[register := entry]), HostWrite(register, value))
  }

  // ---------------------------------------------------------------------
  // Reconciling one pending entry against one read-back value.

  /** What one read-back does to one pending entry. */
  datatype Verdict = Verdict(entry: Option<PendingWrite>, resend: bool)

  /** The body of the reconciliation loop for a register with a pending
      entry: still inside the grace period, leave it; read-back matches,
      drop it; otherwise resend the value and either give up (last attempt)
      or count the attempt down. */
  function Verify(e: PendingWrite, observed: Reg, now: int): (v: Verdict)
    ensures e.from > now ==> v == Verdict(Some(e), false)
    ensures e.from <= now && e.value == observed ==> v == Verdict(None, false)
    ensures e.from <= now && e.value != observed ==> v.resend
    ensures v.resend ==> e.from <= now && e.value != observed
    ensures v.resend && e.attemptsLeft <= 1 ==> v.entry == None
    ensures v.resend && e.attemptsLeft > 1 ==> v.entry == Some(e.(attemptsLeft := e.attemptsLeft - 1))
  {
    if e.from > now then Verdict(Some(e), false)
    else if e.value == observed then Verdict(None, false)
    else if e.attemptsLeft <= 1 then Verdict(None, true)
    else Verdict(Some(e.(attemptsLeft := e.attemptsLeft - 1)), true)
  }

  /** The entry an address holds after a read-back of `observed`. */
  function EntryAfter(written: WrittenRegisters, address: int, observed: Reg, now: int): Option<PendingWrite>
  {
    match Lookup(written, address)
    case None => None
    case Some(e) => Verify(e, observed, now).entry
  }

  /** Whether a read-back of `observed` makes the inverter resend `address`. */
  predicate Resends(written: WrittenRegisters, address: int, observed: Reg, now: int)
  {
    Lookup(written, address).Some? && Verify(Lookup(written, address).value, observed, now).resend
  }

  datatype Reconciled = Reconciled(written: WrittenRegisters, commands: seq<HostWrite>)

  /** One iteration of the loop: settle the entry at `address`, if any. */
  function Settle(written: WrittenRegisters, address: int, observed: Reg, now: int): (r: Reconciled)
    ensures Lookup(r.written, address) == EntryAfter(written, address, observed, now)
    ensures forall a :: a != address ==> Lookup(r.written, a) == Lookup(written, a)
    ensures Resends(written, address, observed, now) ==> r.commands == [HostWrite(address, written[address].value)]
    ensures !Resends(written, address, observed, now) ==> r.commands == []
  {
    if address !in written then Reconciled(written, [])
    else
      var v := Verify(written[address], observed, now);
      var w := if v.entry.Some? then written[address := v.entry.value] else written - {address};
      Reconciled(w, if v.resend then [HostWrite(address, written[address].value)] else [])
  }

  /** The `for register in registers.registers` loop: the i-th returned value
      settles the entry for `start + i`, in address order. */
  function Reconcile(written: WrittenRegisters, start: int, regs: seq<Reg>, now: int): Reconciled
    decreases |regs|
  {
    if regs == [] then Reconciled(written, [])
    else
      var here := Settle(written, start, regs[0], now);
      var rest := Reconcile(here.written, start + 1, regs[1..], now);
      Reconciled(rest.written, here.commands + rest.commands)
  }

  /** Entries outside the block are untouched by its reconciliation. */
  lemma {:induction false} ReconcileOutside(written: WrittenRegisters, start: int, regs: seq<Reg>, now: int)
    ensures forall a :: !(start <= a < start + |regs|) ==>
      Lookup(Reconcile(written, start, regs, now).written, a) == Lookup(written, a)
    decreases |regs|
  {
    if regs != [] {
      var here := Settle(written, start, regs[0], now);
      ReconcileOutside(here.written, start + 1, regs[1..], now);
    }
  }

  /** Each register of the block settles its own entry exactly as `Verify`
      says for the value read back at its offset. */
  lemma {:induction false} ReconcileInside(written: WrittenRegisters, start: int, regs: seq<Reg>, now: int)
    ensures forall a :: start <= a < start + |regs| ==>
      Lookup(Reconcile(written, start, regs, now).written, a) == EntryAfter(written, a, regs[a - start], now)
    decreases |regs|
  {
    if regs != [] {
      var here := Settle(written, start, regs[0], now);
      var r := Reconcile(written, start, regs, now);
      ReconcileOutside(here.written, start + 1, regs[1..], now);
      ReconcileInside(here.written, start + 1, regs[1..], now);
      forall a | start <= a < start + |regs|
        ensures Lookup(r.written, a) == EntryAfter(written, a, regs[a - start], now)
      {
        if a > start {
          assert regs[1..][a - (start + 1)] == regs[a - start];
          assert Lookup(here.written, a) == Lookup(written, a);
        }
      }
    }
  }

  /** Every command belongs to the block, answers a post-grace mismatch and
      carries the stored value. */
  predicate CommandsJustified(written: WrittenRegisters, start: int, regs: seq<Reg>, now: int, cs: seq<HostWrite>)
  {
    forall i :: 0 <= i < |cs| ==>
      && start <= cs[i].register < start + |regs|
      && Resends(written, cs[i].register, regs[cs[i].register - start], now)
      && cs[i].value == written[cs[i].register].value
  }

  /** Commands go out in increasing address order. */
  predicate Ascending(cs: seq<HostWrite>)
  {
    forall i, j :: 0 <= i < j < |cs| ==> cs[i].register < cs[j].register
  }

  /** Sound resends: justified, and in address order. */
  predicate CommandsSound(written: WrittenRegisters, start: int, regs: seq<Reg>, now: int, cs: seq<HostWrite>)
  {
    CommandsJustified(written, start, regs, now, cs) && Ascending(cs)
  }

  /** The resends a block read sends out are sound in that sense. */
  lemma ReconcileCommandsSound(written: WrittenRegisters, start: int, regs: seq<Reg>, now: int)
    ensures CommandsSound(written, start, regs, now, Reconcile(written, start, regs, now).commands)
  {
    ReconcileCommandsJustified(written, start, regs, now);
    ReconcileCommandsAscending(written, start, regs, now);
  }

  lemma {:induction false} ReconcileCommandsJustified(written: WrittenRegisters, start: int, regs: seq<Reg>, now: int)
    ensures CommandsJustified(written, start, regs, now, Reconcile(written, start, regs, now).commands)
    decreases |regs|
  {
    if regs != [] {
      var here := Settle(written, start, regs[0], now);
      var rest := Reconcile(here.written, start + 1, regs[1..], now).commands;
      var cs := Reconcile(written, start, regs, now).commands;
      ReconcileCommandsJustified(here.written, start + 1, regs[1..], now);
      assert cs == here.commands + rest;
      forall i | 0 <= i < |cs|
        ensures && start <= cs[i].register < start + |regs|
                && Resends(written, cs[i].register, regs[cs[i].register - start], now)
                && cs[i].value == written[cs[i].register].value
      {
        if i >= |here.commands| {
          var k := i - |here.commands|;
          assert cs[i] == rest[k];
          var a := rest[k].register;
          assert start + 1 <= a < start + 1 + |regs[1..]|;
          assert Resends(here.written, a, regs[1..][a - (start + 1)], now);
          assert regs[1..][a - (start + 1)] == regs[a - start];
          assert Lookup(here.written, a) == Lookup(written, a);
        } else {
          assert cs[i] == HostWrite(start, written[start].value);
        }
      }
    }
  }

  lemma {:induction false} ReconcileCommandsAscending(written: WrittenRegisters, start: int, regs: seq<Reg>, now: int)
    ensures Ascending(Reconcile(written, start, regs, now).commands)
    decreases |regs|
  {
    if regs != [] {
      var here := Settle(written, start, regs[0], now);
      var rest := Reconcile(here.written, start + 1, regs[1..], now).commands;
      var cs := Reconcile(written, start, regs, now).commands;
      ReconcileCommandsAscending(here.written, start + 1, regs[1..], now);
      ReconcileCommandsJustified(here.written, start + 1, regs[1..], now);
      assert cs == here.commands + rest;
      assert |here.commands| <= 1;
      forall i, j | 0 <= i < j < |cs|
        ensures cs[i].register < cs[j].register
      {
        assert cs[j] == rest[j - |here.commands|];
        assert start + 1 <= rest[j - |here.commands|].register;
        if i >= |here.commands| {
          assert cs[i] == rest[i - |here.commands|];
        } else {
          assert cs[i].register == start;
        }
      }
    }
  }

  /** Every post-grace mismatch in the block is resent with the stored value. */
  lemma {:induction false} ReconcileCommandsComplete(written: WrittenRegisters, start: int, regs: seq<Reg>, now: int)
    ensures forall a :: start <= a < start + |regs| && Resends(written, a, regs[a - start], now) ==>
      HostWrite(a, written[a].value) in Reconcile(written, start, regs, now).commands
    decreases |regs|
  {
    if regs != [] {
      var here := Settle(written, start, regs[0], now);
      var rest := Reconcile(here.written, start + 1, regs[1..], now);
      var cs := Reconcile(written, start, regs, now).commands;
      ReconcileCommandsComplete(here.written, start + 1, regs[1..], now);
      assert cs == here.commands + rest.commands;
      forall a | start <= a < start + |regs| && Resends(written, a, regs[a - start], now)
        ensures HostWrite(a, written[a].value) in cs
      {
        if a == start {
          assert cs[0] == HostWrite(a, written[a].value);
        } else {
          assert regs[1..][a - (start + 1)] == regs[a - start];
          assert Lookup(here.written, a) == Lookup(written, a);
          assert HostWrite(a, here.written[a].value) in rest.commands;
        }
      }
    }
  }

  // ---------------------------------------------------------------------
  // A block read.

  /** What the Modbus host hands back for a block read: nothing (not
      connected, or the client raised), an error response, or registers. */
  datatype ReadResponse = NoResponse | ErrorResponse | Registers(regs: seq<Reg>)

  datatype ReadResult = ReadResult(inverter: Inverter, registers: Option<seq<Reg>>, commands: seq<HostWrite>)

  /** `Inverter.read_holding_registers(start_address, num_registers)` at time
      `now`: a failed, error or empty response yields `None` and leaves every
      pending entry as it was; otherwise the block is returned and reconciled
      against the pending writes. */
  function ReadHoldingRegisters(inv: Inverter, startAddress: int, response: ReadResponse, now: int): (r: ReadResult)
    ensures !response.Registers? || response.regs == [] ==> r == ReadResult(inv, None, [])
    ensures response.Registers? && response.regs != [] ==>
      && r.registers == Some(response.regs)
      && r.inverter == inv.(written := r.inverter.written)
  {
    if !response.Registers? || response.regs == [] then ReadResult(inv, None, [])
    else
      var rec := Reconcile(inv.written, startAddress, response.regs, now);
      ReadResult(inv.(written := rec.written), Some(response.regs), rec.commands)
  }

  /** A successful read settles the pending write of every register in the
      block as `Verify` says and leaves every other pending write alone. */
  lemma ReadReconcilesBlock(inv: Inverter, startAddress: int, regs: seq<Reg>, now: int)
    requires regs != []
    ensures var r := ReadHoldingRegisters(inv, startAddress, Registers(regs), now);
      && (forall a :: startAddress <= a < startAddress + |regs| ==>
            Lookup(r.inverter.written, a) == EntryAfter(inv.written, a, regs[a - startAddress], now))
      && (forall a :: !(startAddress <= a < startAddress + |regs|) ==>
            Lookup(r.inverter.written, a) == Lookup(inv.written, a))
      && (forall a :: startAddress <= a < startAddress + |regs| && Resends(inv.written, a, regs[a - startAddress], now) ==>
            HostWrite(a, inv.written[a].value) in r.commands)
      && CommandsSound(inv.written, startAddress, regs, now, r.commands)
  {
    ReconcileInside(inv.written, startAddress, regs, now);
    ReconcileOutside(inv.written, startAddress, regs, now);
    ReconcileCommandsSound(inv.written, startAddress, regs, now);
    ReconcileCommandsComplete(inv.written, startAddress, regs, now);
  }

  // ---------------------------------------------------------------------
  // Convergence of one entry under repeated read-backs.

  datatype History = History(entry: Option<PendingWrite>, resends: nat)

  /** The entry after `k` further read-backs of the same value at time
      `now`, with the number of resends they caused. */
  function ReadBackTimes(e: Option<PendingWrite>, observed: Reg, now: int, k: nat): History
    decreases k
  {
    if k == 0 || e.None? then History(e, 0)
    else
      var v := Verify(e.value, observed, now);
      var h := ReadBackTimes(v.entry, observed, now, k - 1);
      History(h.entry, h.resends + (if v.resend then 1 else 0))
  }

  /** A write whose read-back never matches survives exactly `attemptsLeft`
      post-grace read-backs: before that many it is still pending with its
      budget counted down by one each time, and the last one removes it;
      every one of them resent the value. */
  lemma {:induction false} MismatchExhaustsAttempts(e: PendingWrite, observed: Reg, now: int, k: nat)
    requires e.from <= now && e.value != observed
    requires e.attemptsLeft >= 1
    ensures k < e.attemptsLeft ==>
      ReadBackTimes(Some(e), observed, now, k) == History(Some(e.(attemptsLeft := e.attemptsLeft - k)), k)
    ensures k >= e.attemptsLeft ==>
      ReadBackTimes(Some(e), observed, now, k) == History(None, e.attemptsLeft)
    decreases k
  {
    if k > 0 {
      var v := Verify(e, observed, now);
      if e.attemptsLeft > 1 {
        MismatchExhaustsAttempts(e.(attemptsLeft := e.attemptsLeft - 1), observed, now, k - 1);
      } else {
        assert ReadBackTimes(None, observed, now, k - 1) == History(None, 0);
      }
    }
  }

  /** A matching read-back after the grace period removes the entry at once,
      without a resend. */
  lemma MatchRemovesAtOnce(e: PendingWrite, now: int, k: nat)
    requires e.from <= now && 0 <= e.value < 0x1_0000
    requires k >= 1
    ensures ReadBackTimes(Some(e), e.value, now, k) == History(None, 0)
  {
    assert Verify(e, e.value, now) == Verdict(None, false);
    assert ReadBackTimes(None, e.value, now, k - 1) == History(None, 0);
  }

  /** During the grace period read-backs neither consume an attempt nor
      cause a resend, however many there are. */
  lemma {:induction false} GraceReadBacksChangeNothing(e: PendingWrite, observed: Reg, now: int, k: nat)
    requires e.from > now
    ensures ReadBackTimes(Some(e), observed, now, k) == History(Some(e), 0)
    decreases k
  {
    if k > 0 {
      GraceReadBacksChangeNothing(e, observed, now, k - 1);
    }
  }

  /** A fresh write (full budget of ten) whose register keeps reading back
      something else is resent ten times and gone after the tenth post-grace
      read; after nine it is still pending with one attempt left. */
  lemma FreshWriteGivesUpAfterTen(inv: Inverter, register: int, value: int, observed: Reg,
                                  writeTime: int, pollIntervalSeconds: int, now: int)
    requires value != observed
    requires now >= writeTime + pollIntervalSeconds - 1
    ensures var e := WriteRegister(inv, register, value, writeTime, pollIntervalSeconds).inverter.written[register];
      && ReadBackTimes(Some(e), observed, now, 9).entry == Some(e.(attemptsLeft := 1))
      && ReadBackTimes(Some(e), observed, now, 10) == History(None, 10)
  {
    var e := WriteRegister(inv, register, value, writeTime, pollIntervalSeconds).inverter.written[register];
    assert e == PendingWrite(value, MaxAttempts, writeTime + pollIntervalSeconds - 1);
    MismatchExhaustsAttempts(e, observed, now, 9);
    MismatchExhaustsAttempts(e, observed, now, 10);
  }

  /** Write of 500 to 0x30BA with a budget of three, read back as 400 three
      times: the third mismatch removes the entry, and a fourth read-back
      finds nothing to resend. */
  lemma ThreeMismatchesWithBudgetThree(now: int)
    ensures var e := PendingWrite(500, 3, now);
      && ReadBackTimes(Some(e), 400, now, 2).entry.Some?
      && ReadBackTimes(Some(e), 400, now, 3) == History(None, 3)
      && ReadBackTimes(Some(e), 400, now, 4) == History(None, 3)
  {
    var e := PendingWrite(500, 3, now);
    MismatchExhaustsAttempts(e, 400, now, 2);
    MismatchExhaustsAttempts(e, 400, now, 3);
    MismatchExhaustsAttempts(e, 400, now, 4);
  }

  // ---------------------------------------------------------------------
  // PV energy today.

  datatype ShagResult = ShagResult(inverter: Inverter, energy: real)

  /** `shag_pv_energy_today(reading)`: when the daily counter drops below its
      previous reading to under 1 kWh (the inverter's day rolled over), that
      reading becomes the new offset; the previous reading is always
      updated; the result is the reading less the offset. */
  function ShagPvEnergyToday(inv: Inverter, reading: real): (r: ShagResult)
    ensures r.inverter.previousPvEnergyToday == reading
    ensures inv.previousPvEnergyToday > reading && reading < 1.0 ==>
      r.inverter.pvEnergyTodayOffset == reading && r.energy == 0.0
    ensures !(inv.previousPvEnergyToday > reading && reading < 1.0) ==>
      r.inverter.pvEnergyTodayOffset == inv.pvEnergyTodayOffset
    ensures r.energy == reading - r.inverter.pvEnergyTodayOffset
    ensures r.inverter.written == inv.written
  {
    var offset := if inv.previousPvEnergyToday > reading && reading < 1.0 then reading
                  else inv.pvEnergyTodayOffset;
    var inv' := inv.(previousPvEnergyToday := reading, pvEnergyTodayOffset := offset);
    ShagResult(inv', reading - offset)
  }

  /** Between two readings that do not go down the reported energy grows by
      exactly the difference of the readings. */
  lemma ShagTracksRisingCounter(inv: Inverter, r1: real, r2: real)
    requires r1 <= r2
    ensures var a := ShagPvEnergyToday(inv, r1);
            var b := ShagPvEnergyToday(a.inverter, r2);
            b.energy - a.energy == r2 - r1
  {
  }
}
