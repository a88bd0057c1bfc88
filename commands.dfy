/**
 * Vehicle commands: the validating command-string builders, the dry-run branch of
 * sending a command, and the command-counter lookup in a command response.
 */
module Commands {
  import opened Wrappers
  import opened Text

  /** The `ValueError`s the builders raise, one per check. */
  datatype CommandError =
    | TemperatureOutOfRange
    | ChargeLimitOutOfRange
    | ChargeAmpsOutOfRange
    | InvalidSeat
    | HeaterLevelOutOfRange

  function StartHvac(): string { "auto_conditioning_start" }
  function StopHvac(): string { "auto_conditioning_stop" }
  function StartCharging(): string { "charge_start" }
  function StopCharging(): string { "charge_stop" }

  const TemperaturePrefix: string := "set_temps&temp="
  const ChargeLimitPrefix: string := "set_charge_limit&charge_limit_soc="
  const ChargeAmpsPrefix: string := "set_charging_amps&charging_amps="
  const SeatHeaterPrefix: string := "seat_heater&heater="
  const LevelInfix: string := "&level="

  /** A temperature of `tenths` tenths of a degree as Python prints the float: `21.0`, `21.5`. */
  function TenthsToString(tenths: nat): string {
    NatToString(tenths / 10) + "." + [DigitChar(tenths % 10)]
  }

  /** `set_temperature`: 15 to 28 degrees inclusive, given in tenths of a degree. */
  function SetTemperature(tenths: int): (r: Result<string, CommandError>)
    ensures r.Failure? <==> !(150 <= tenths <= 280)
    ensures r.Failure? ==> r.error == TemperatureOutOfRange
    ensures r.Success? ==> |r.value| > |TemperaturePrefix| && r.value[..|TemperaturePrefix|] == TemperaturePrefix
  {
    if !(150 <= tenths <= 280) then Failure(TemperatureOutOfRange)
    else Success(TemperaturePrefix + TenthsToString(tenths))
  }

  /** The argument of an accepted `set_temps` command reads back as the temperature. */
  lemma TemperatureRoundTrip(tenths: int)
    requires 150 <= tenths <= 280
    ensures var arg := SetTemperature(tenths).value[|TemperaturePrefix|..];
      && |arg| >= 3 && arg[|arg| - 2] == '.'
      && ParseInt(arg[..|arg| - 2]) == Some(tenths / 10)
      && IsDigit(arg[|arg| - 1]) && DigitValue(arg[|arg| - 1]) == tenths % 10
  {
    assert SetTemperature(tenths).value[|TemperaturePrefix|..] == TenthsToString(tenths);
    TenthsToStringParts(tenths);
    ParseIntOfNatToString(tenths / 10);
    DigitValueOfDigitChar(tenths % 10);
  }

  lemma TenthsToStringParts(tenths: nat)
    ensures var s := TenthsToString(tenths);
      && |s| >= 3 && s[|s| - 2] == '.'
      && s[..|s| - 2] == NatToString(tenths / 10) && s[|s| - 1] == DigitChar(tenths % 10)
  {
    var whole := NatToString(tenths / 10);
    assert TenthsToString(tenths) == whole + ['.', DigitChar(tenths % 10)];
  }

  /** `set_charge_limit`: 50 to 100 percent inclusive. */
  function SetChargeLimit(percent: int): (r: Result<string, CommandError>)
    ensures r.Failure? <==> !(50 <= percent <= 100)
    ensures r.Failure? ==> r.error == ChargeLimitOutOfRange
    ensures r.Success? ==> |r.value| > |ChargeLimitPrefix| && r.value[..|ChargeLimitPrefix|] == ChargeLimitPrefix
  {
    if !(50 <= percent <= 100) then Failure(ChargeLimitOutOfRange)
    else Success(ChargeLimitPrefix + NatToString(percent))
  }

  /** The argument of an accepted charge-limit command reads back as the percentage. */
  lemma ChargeLimitRoundTrip(percent: int)
    requires 50 <= percent <= 100
    ensures ParseInt(SetChargeLimit(percent).value[|ChargeLimitPrefix|..]) == Some(percent)
  {
    assert SetChargeLimit(percent).value[|ChargeLimitPrefix|..] == NatToString(percent);
    ParseIntOfNatToString(percent);
  }

  /** `set_charge_amps`: 5 to 32 amps inclusive. */
  function SetChargeAmps(amps: int): (r: Result<string, CommandError>)
    ensures r.Failure? <==> !(5 <= amps <= 32)
    ensures r.Failure? ==> r.error == ChargeAmpsOutOfRange
    ensures r.Success? ==> |r.value| > |ChargeAmpsPrefix| && r.value[..|ChargeAmpsPrefix|] == ChargeAmpsPrefix
  {
    if !(5 <= amps <= 32) then Failure(ChargeAmpsOutOfRange)
    else Success(ChargeAmpsPrefix + NatToString(amps))
  }

  /** The argument of an accepted charging-current command reads back as the current. */
  lemma ChargeAmpsRoundTrip(amps: int)
    requires 5 <= amps <= 32
    ensures ParseInt(SetChargeAmps(amps).value[|ChargeAmpsPrefix|..]) == Some(amps)
  {
    assert SetChargeAmps(amps).value[|ChargeAmpsPrefix|..] == NatToString(amps);
    ParseIntOfNatToString(amps);
  }

  /** The heater id of each seat the vehicle knows. */
  const SeatHeaterIds: map<string, nat> :=
    map["driver" := 0, "passenger" := 1, "rear_left" := 2, "rear_center" := 4, "rear_right" := 5]

  /** Different seats have different heaters, and no seat maps to heater 3. */
  lemma SeatHeaterIdsInjective()
    ensures forall a, b :: a in SeatHeaterIds && b in SeatHeaterIds && a != b ==> SeatHeaterIds[a] != SeatHeaterIds[b]
    ensures 3 !in SeatHeaterIds.Values
    ensures forall s :: s in SeatHeaterIds ==> SeatHeaterIds[s] < 6
  {
  }

  /** `set_seat_heater`: the seat is checked first, then the level 0 to 3. */
  function SetSeatHeater(seat: string, level: int): (r: Result<string, CommandError>)
    ensures seat !in SeatHeaterIds ==> r == Failure(InvalidSeat)
    ensures seat in SeatHeaterIds ==> (r.Failure? <==> !(0 <= level <= 3))
    ensures seat in SeatHeaterIds && !(0 <= level <= 3) ==> r == Failure(HeaterLevelOutOfRange)
    ensures r.Success? ==>
      |r.value| == |SeatHeaterPrefix| + 1 + |LevelInfix| + 1 && r.value[..|SeatHeaterPrefix|] == SeatHeaterPrefix
  {
    if seat !in SeatHeaterIds then Failure(InvalidSeat)
    else if !(0 <= level <= 3) then Failure(HeaterLevelOutOfRange)
    else
      var heaterId := SeatHeaterIds[seat];
      Success(SeatHeaterPrefix + NatToString(heaterId) + LevelInfix + NatToString(level))
  }

  /** An accepted seat-heater command carries the seat's heater id and the level, one digit each. */
  lemma SeatHeaterRoundTrip(seat: string, level: int)
    requires seat in SeatHeaterIds && 0 <= level <= 3
    ensures var c := SetSeatHeater(seat, level).value;
      && DigitValue(c[|SeatHeaterPrefix|]) == SeatHeaterIds[seat]
      && c[|SeatHeaterPrefix| + 1..|c| - 1] == LevelInfix
      && DigitValue(c[|c| - 1]) == level
  {
    DigitValueOfDigitChar(SeatHeaterIds[seat]);
    DigitValueOfDigitChar(level);
  }

  /** What `send_command` does: echo the command in a dry run, otherwise request it. */
  datatype Dispatch = DryRunEcho(command: string) | Request(command: string)

  /** `ElectraFiAPI.send_command`: a dry run never reaches the transport. */
  function SendCommand(command: string, dryRun: bool): (d: Dispatch)
    ensures d.command == command
    ensures d.DryRunEcho? <==> dryRun
  {
    if dryRun then DryRunEcho(command) else Request(command)
  }

  const CommandCounterKey: string := "tesla_request_counter"

  /** `VehicleDataExtractor.get_command_counters`. */
  function GetCommandCounters<V>(data: map<string, V>): (r: Option<V>)
    ensures r.Some? <==> CommandCounterKey in data
    ensures r.Some? ==> r.value == data[CommandCounterKey]
  {
    if CommandCounterKey in data then Some(data[CommandCounterKey]) else None
  }
}
