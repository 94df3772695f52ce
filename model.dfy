/** The sensor model of the Arduino firmware (src/model.cpp): it stores the
    latest readings, derives the overall traffic-light status from the CO2 and
    IAQ values and notifies its listener of every update. */
module SensorModel {
  import opened CTypes
  import opened TrafficLight
  import opened Arithmetic

  /** The quantities a model-update mask can name (`M_CO2`, `M_TEMPERATURE`, ...). */
  datatype Quantity =
    | Co2 | Temperature | Humidity | Pressure | Iaq
    | Pm0_5 | Pm1_0 | Pm2_5 | Pm4 | Pm10

  /** One call of the listener `modelUpdatedEvt`: the mask of updated
      quantities and, for the climate and environment updates, the status
      before and after the update. */
  datatype Event =
    | Updated(mask: set<Quantity>, oldStatus: Status, newStatus: Status)
    | Notified(mask: set<Quantity>)

  /** The five particulate-matter fields `pm0_5`, `pm1_0`, `pm2_5`, `pm4`, `pm10`. */
  datatype PmSample = PmSample(pm0_5: u16, pm1_0: u16, pm2_5: u16, pm4: u16, pm10: u16)

  /** CO2 sub-status of `updateStatus`: a reading of 0 means "no reading";
      otherwise the first threshold the reading is below decides. */
  function Co2Status(co2: int, config: Thresholds): (r: Status)
    ensures r == Undefined <==> co2 == 0
    ensures co2 != 0 ==>
      (r == Green <==> co2 < config.yellow) &&
      (r == Yellow <==> config.yellow <= co2 < config.red) &&
      (r == Red <==> config.yellow <= co2 && config.red <= co2 < config.darkRed) &&
      (r == DarkRed <==> config.yellow <= co2 && config.red <= co2 && config.darkRed <= co2)
  {
    if co2 == 0 then Undefined
    else if co2 < config.yellow then Green
    else if co2 < config.red then Yellow
    else if co2 < config.darkRed then Red
    else if co2 >= config.darkRed then DarkRed
    else Undefined
  }

  /** IAQ sub-status of `updateStatus`, on the fixed index bands
      1..50, 51..100, 101..200 and above 200. */
  function IaqStatus(iaq: int): (r: Status)
    requires iaq >= 0
    ensures r == Undefined <==> iaq == 0
    ensures r == Green <==> 1 <= iaq <= 50
    ensures r == Yellow <==> 51 <= iaq <= 100
    ensures r == Red <==> 101 <= iaq <= 200
    ensures r == DarkRed <==> iaq > 200
  {
    if iaq == 0 then Undefined
    else if iaq <= 50 then Green
    else if iaq <= 100 then Yellow
    else if iaq <= 200 then Red
    else DarkRed
  }

  /** The status `updateStatus` stores: the more severe of the two sub-statuses. */
  function CombinedStatus(co2: int, iaq: int, config: Thresholds): (r: Status)
    requires iaq >= 0
    ensures AtMost(Co2Status(co2, config), r) && AtMost(IaqStatus(iaq), r)
    ensures r == Co2Status(co2, config) || r == IaqStatus(iaq)
  {
    Max(Co2Status(co2, config), IaqStatus(iaq))
  }

  /** The status is UNDEFINED exactly when neither a CO2 nor an IAQ reading
      has been stored. */
  lemma CombinedUndefinedIff(co2: int, iaq: int, config: Thresholds)
    requires iaq >= 0
    ensures CombinedStatus(co2, iaq, config) == Undefined <==> co2 == 0 && iaq == 0
  {
    var c, i := Co2Status(co2, config), IaqStatus(iaq);
    assert Rank(c) <= Rank(Max(c, i)) && Rank(i) <= Rank(Max(c, i));
  }

  /** Any CO2 reading at or above every threshold makes the whole device
      DARK_RED, whatever the IAQ says. */
  lemma DarkRedCo2Dominates(co2: int, iaq: int, config: Thresholds)
    requires iaq >= 0 && co2 != 0
    requires co2 >= config.yellow && co2 >= config.red && co2 >= config.darkRed
    ensures CombinedStatus(co2, iaq, config) == DarkRed
  {
    assert Co2Status(co2, config) == DarkRed;
    assert Rank(CombinedStatus(co2, iaq, config)) == 4;
  }

  /** Mask passed by `updateModel(co2, temperature, humidity)`: M_CO2 only
      for a nonzero reading. */
  function ClimateMask(co2: int): (m: set<Quantity>)
    ensures Co2 in m <==> co2 != 0
    ensures Temperature in m && Humidity in m
    ensures m <= {Co2, Temperature, Humidity}
  {
    (if co2 != 0 then {Co2} else {}) + {Temperature, Humidity}
  }

  /** Mask passed by `updateModel(temperature, humidity, pressure, iaq)`:
      M_IAQ only for a nonzero index. */
  function EnvironmentMask(iaq: int): (m: set<Quantity>)
    ensures Iaq in m <==> iaq != 0
    ensures Temperature in m && Humidity in m && Pressure in m
    ensures m <= {Temperature, Humidity, Pressure, Iaq}
  {
    {Temperature, Humidity, Pressure} + (if iaq != 0 then {Iaq} else {})
  }

  predicate IsParticulate(q: Quantity) {
    q in {Pm0_5, Pm1_0, Pm2_5, Pm4, Pm10}
  }

  /** Mask of the particulate update, as intended: all five PM flags. */
  function PmMask(): (m: set<Quantity>)
    ensures forall q :: q in m <==> IsParticulate(q)
  {
    {Pm0_5, Pm1_0, Pm2_5, Pm4, Pm10}
  }

  /** Whether bit `k` of a non-negative mask is set. */
  predicate HasBit(mask: nat, k: nat) {
    (mask / Pow2(k)) % 2 == 1
  }

  /** C's `a || b || ...` on integers: 1 if any operand is nonzero, else 0. */
  function LogicalOr(values: seq<int>): (r: nat)
    ensures r == 1 <==> exists i :: 0 <= i < |values| && values[i] != 0
    ensures r <= 1
  {
    if values == [] then 0
    else if values[0] != 0 then 1
    else
      var rest := LogicalOr(values[1..]);
      assert forall i :: 1 <= i < |values| ==> values[i] == values[1..][i - 1];
      rest
  }

  /** The mask the particulate overload of `updateModel` passes AS WRITTEN:
      `M_PM0_5 || M_PM1_0 || M_PM2_5 || M_PM4 || M_PM10`, where flag `i` has
      the single bit `bits[i]` (the flag values, declared in model.h, are not
      part of this model). */
  function PmMaskAsWritten(bits: seq<nat>): (mask: nat)
    requires |bits| == 5
    ensures mask == 1
  {
    var flags := seq(5, i requires 0 <= i < 5 => Pow2(bits[i]));
    assert flags[0] != 0;
    LogicalOr(flags)
  }

  /** The only bit of 1 is bit 0. */
  lemma {:induction false} HasBitOfOne(k: nat)
    ensures HasBit(1, k) <==> k == 0
  {
    if k > 0 {
      assert Pow2(k) >= 2;
      DivModUnique(1, Pow2(k), 0, 1);
    }
  }

  /** The logical-or mask keeps at most one of the five particulate flags,
      whatever distinct single bits the flags are: at least four of the five
      updated quantities are missing from it. */
  lemma PmMaskAsWrittenKeepsAtMostOneFlag(bits: seq<nat>, i: nat, j: nat)
    requires |bits| == 5 && i < 5 && j < 5
    requires forall a, b :: 0 <= a < b < 5 ==> bits[a] != bits[b]
    requires HasBit(PmMaskAsWritten(bits), bits[i]) && HasBit(PmMaskAsWritten(bits), bits[j])
    ensures i == j
  {
    HasBitOfOne(bits[i]);
    HasBitOfOne(bits[j]);
  }

  /** `getPM1_0` AS WRITTEN: it returns the `pm10` field. */
  function Pm1_0AsWritten(sample: PmSample): (r: u16)
    ensures r == sample.pm10
  {
    sample.pm10
  }

  /** A sample in which PM1.0 and PM10 differ shows the mix-up. */
  lemma Pm1_0AsWrittenMisreads()
    ensures Pm1_0AsWritten(PmSample(0, 1, 0, 0, 2)) != PmSample(0, 1, 0, 0, 2).pm1_0
  {
  }

  /** The getter as written agrees with the PM1.0 reading exactly when the
      sample's PM1.0 and PM10 happen to be equal. */
  lemma Pm1_0AsWrittenAgreesIff(sample: PmSample)
    ensures Pm1_0AsWritten(sample) == sample.pm1_0 <==> sample.pm1_0 == sample.pm10
  {
  }

  /** `Model`: the latest readings, the derived status and the listener's
      call history. */
  class Model {
    var co2: u16
    var temperature: Float
    var humidity: Float
    var pressure: u16
    var iaq: u16
    /** Never written by any method: the particulate overload drops its
        arguments, and the constructor leaves these fields uninitialised. */
    var pm: PmSample
    var status: Status
    /** Every call of `modelUpdatedEvt`, oldest first. */
    var events: seq<Event>

    /** `Model(modelUpdatedEvt)`. The indeterminate initial particulate
        values are a parameter. */
    constructor (indeterminate: PmSample)
      ensures co2 == 0 && iaq == 0 && pressure == 0
      ensures temperature == NaN && humidity == NaN
      ensures status == Undefined && pm == indeterminate && events == []
    {
      temperature, humidity := NaN, NaN;
      co2, pressure, iaq := 0, 0, 0;
      pm := indeterminate;
      status := Undefined;
      events := [];
    }

    /** `updateModel(co2, temperature, humidity)`: stores the three readings,
        recomputes the status and reports (previous status, new status). */
    method UpdateClimate(newCo2: u16, newTemperature: Float, newHumidity: Float, config: Thresholds)
      modifies this
      ensures co2 == newCo2 && temperature == newTemperature && humidity == newHumidity
      ensures pressure == old(pressure) && iaq == old(iaq) && pm == old(pm)
      ensures status == CombinedStatus(co2 as int, iaq as int, config)
      ensures events == old(events) + [Updated(ClimateMask(newCo2 as int), old(status), status)]
    {
      co2 := newCo2;
      temperature := newTemperature;
      humidity := newHumidity;
      var oldStatus := status;
      UpdateStatus(config);
      events := events + [Updated(ClimateMask(newCo2 as int), oldStatus, status)];
    }

    /** `updateModel(temperature, humidity, pressure, iaq)`: stores the four
        readings, leaves co2 alone, recomputes the status and reports it. */
    method UpdateEnvironment(newTemperature: Float, newHumidity: Float, newPressure: u16, newIaq: u16,
                             config: Thresholds)
      modifies this
      ensures temperature == newTemperature && humidity == newHumidity
      ensures pressure == newPressure && iaq == newIaq
      ensures co2 == old(co2) && pm == old(pm)
      ensures status == CombinedStatus(co2 as int, iaq as int, config)
      ensures events == old(events) + [Updated(EnvironmentMask(newIaq as int), old(status), status)]
    {
      temperature := newTemperature;
      humidity := newHumidity;
      pressure := newPressure;
      iaq := newIaq;
      var oldStatus := status;
      UpdateStatus(config);
      events := events + [Updated(EnvironmentMask(newIaq as int), oldStatus, status)];
    }

    /** `updateModel(pm0_5, pm1_0, pm2_5, pm4, pm10)`: the readings are
        dropped and no field changes; the listener is told about the five
        particulate quantities (with the corrected mask, see `PmMask`). */
    method UpdateParticulates(pm0_5: u16, pm1_0: u16, pm2_5: u16, pm4: u16, pm10: u16)
      modifies this`events
      ensures events == old(events) + [Notified(PmMask())]
    {
      events := events + [Notified(PmMask())];
    }

    /** `updateStatus`. */
    method UpdateStatus(config: Thresholds)
      modifies this`status
      ensures status == CombinedStatus(co2 as int, iaq as int, config)
    {
      var co2Status := Undefined;
      if co2 != 0 {
        if co2 as int < config.yellow {
          co2Status := Green;
        } else if (co2 as int) < config.red {
          co2Status := Yellow;
        } else if (co2 as int) < config.darkRed {
          co2Status := Red;
        } else if co2 as int >= config.darkRed {
          co2Status := DarkRed;
        }
      }
      var iaqStatus := Undefined;
      if iaq != 0 {
        if iaq <= 50 {
          iaqStatus := Green;
        } else if iaq <= 100 {
          iaqStatus := Yellow;
        } else if iaq <= 200 {
          iaqStatus := Red;
        } else {
          iaqStatus := DarkRed;
        }
      }
      status := Max(co2Status, iaqStatus);
    }

    function GetStatus(): Status reads this { status }
    function GetCo2(): u16 reads this { co2 }
    function GetTemperature(): Float reads this { temperature }
    function GetHumidity(): Float reads this { humidity }
    function GetPressure(): u16 reads this { pressure }
    function GetIaq(): u16 reads this { iaq }
    function GetPm0_5(): u16 reads this { pm.pm0_5 }
    function GetPm2_5(): u16 reads this { pm.pm2_5 }
    function GetPm4(): u16 reads this { pm.pm4 }
    function GetPm10(): u16 reads this { pm.pm10 }

    /** `getPM1_0`, corrected to read the PM1.0 field. */
    function GetPm1_0(): (r: u16)
      reads this
      ensures r == pm.pm1_0
    {
      pm.pm1_0
    }
  }

  /** The corrected getter and the one as written report the same value for
      a model exactly when its PM1.0 and PM10 readings coincide. */
  lemma GetPm1_0AgreesIff(m: Model)
    ensures m.GetPm1_0() == Pm1_0AsWritten(m.pm) <==> m.pm.pm1_0 == m.pm.pm10
  {
  }
}
