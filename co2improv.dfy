/** The improv (BLE WiFi provisioning) component of the ESPHome firmware
    (esphome/custom_components/co2improv/co2improv.h): a binary sensor that
    is on while improv mode runs. Entering the mode switches WiFi off and
    BLE advertising on; it ends on success (WiFi connected), on a timeout,
    or when toggled off. The WiFi, BLE, improv and scheduler calls are
    recorded as effects; the clock is a parameter. */
module ImprovComponent {
  import opened DisplayComponent

  /** `USEC_SEC`. */
  const UsecPerSec := 1_000_000

  /** Improv gives up once it has run for more than this many whole seconds. */
  const TimeoutSecs := 120

  /** The delays, in milliseconds, of the stop timers `setup` and a
      successful `loop` schedule. */
  const SetupStopDelay := 10_000
  const SuccessStopDelay := 2_000

  /** The outside calls the component makes, in order. */
  datatype Effect =
    | PublishInitial(state: bool)   // publish_initial_state
    | Publish(state: bool)          // publish_state
    | ScheduleStop(delayMs: int)    // set_timeout(STOP_TIMER, delay, stopAdvertising)
    | CancelStop                    // cancel_timeout(STOP_TIMER)
    | AdvertisingStop               // global_ble->get_advertising()->stop()
    | AdvertisingStart              // global_ble->get_advertising()->start()
    | WifiDisable                   // wc->disable()
    | WifiEnable                    // wc->enable()
    | ImprovStart                   // global_improv_component->start()

  /** `stopAdvertising()`: stops advertising only when BLE exists. */
  function StopAdvertisingEffects(ble: bool): (e: seq<Effect>)
    ensures e == [] || e == [AdvertisingStop]
    ensures AdvertisingStop in e <==> ble
  {
    if ble then [AdvertisingStop] else []
  }

  /** C++ `int64_t` division by a positive divisor: the quotient is rounded
      toward zero, so the remainder has the sign of the dividend. */
  function TruncDiv(a: int, d: int): (q: int)
    requires d > 0
    ensures a >= 0 ==> 0 <= a - q * d < d
    ensures a < 0 ==> -d < a - q * d <= 0
  {
    if a >= 0 then a / d else -((-a) / d)
  }

  /** `ageS = (now - improvStart) / USEC_SEC`: the whole seconds elapsed
      since the start, counted toward zero for a clock behind the start. */
  function AgeSeconds(now: int, start: int): (a: int)
    ensures now >= start ==> a >= 0 && a * UsecPerSec <= now - start < (a + 1) * UsecPerSec
    ensures now < start ==> a <= 0 && (a - 1) * UsecPerSec < now - start <= a * UsecPerSec
  {
    TruncDiv(now - start, UsecPerSec)
  }

  /** The timeout test of `loop`: `ageS > 120`. */
  predicate TimedOut(now: int, start: int) {
    AgeSeconds(now, start) > TimeoutSecs
  }

  /** Because the age is truncated to whole seconds, improv times out only
      once 121 full seconds have passed, and never for a clock that reads
      earlier than the start. */
  lemma TimedOutIff(now: int, start: int)
    ensures TimedOut(now, start) <==> now - start >= (TimeoutSecs + 1) * UsecPerSec
  {
    var e := now - start;
    var q := AgeSeconds(now, start);
    if e >= 0 {
      if q > TimeoutSecs {
        assert q * UsecPerSec >= (TimeoutSecs + 1) * UsecPerSec;
      } else {
        assert q * UsecPerSec <= TimeoutSecs * UsecPerSec;
      }
    }
  }

  /** Whether WiFi is enabled after a run of effects, for WiFi that starts
      enabled: the last WiFi effect decides. */
  function WifiOn(effects: seq<Effect>): bool {
    if effects == [] then true
    else if effects[|effects| - 1] == WifiEnable then true
    else if effects[|effects| - 1] == WifiDisable then false
    else WifiOn(effects[..|effects| - 1])
  }

  predicate HasWifiEffect(effects: seq<Effect>) {
    WifiEnable in effects || WifiDisable in effects
  }

  /** Appending effects changes the WiFi state only through the WiFi
      effects among them. */
  lemma {:induction false} WifiOnAppend(a: seq<Effect>, b: seq<Effect>)
    ensures WifiOn(a + b) == if HasWifiEffect(b) then WifiOn(b) else WifiOn(a)
    decreases |b|
  {
    if b != [] {
      var b' := b[..|b| - 1];
      assert (a + b)[..|a + b| - 1] == a + b';
      assert b == b' + [b[|b| - 1]];
      WifiOnAppend(a, b');
    } else {
      assert a + b == a;
    }
  }

  /** `Co2Improv`. `bleAvailable` is `global_ble != NULL`; `pendingStop`
      is the delay of the scheduled stop timer, if one is pending. */
  class Co2Improv {
    var inImprov: bool
    /** `esp_timer_get_time()` when improv mode was last entered, in microseconds. */
    var improvStart: int
    var display: Co2Display?
    var bleAvailable: bool
    var pendingStop: Option<int>
    var effects: seq<Effect>

    /** WiFi is off exactly while improv mode runs. */
    predicate Valid()
      reads this
    {
      WifiOn(effects) == !inImprov
    }

    constructor (d: Co2Display?, ble: bool)
      ensures display == d && bleAvailable == ble
      ensures !inImprov && pendingStop == None && effects == [] && Valid()
    {
      inImprov := false;
      improvStart := 0;
      display := d;
      bleAvailable := ble;
      pendingStop := None;
      effects := [];
    }

    /** `setup()`: off, published as the initial state, with advertising
        stopped after 10 s. */
    method Setup()
      modifies this`inImprov, this`pendingStop, this`effects
      ensures !inImprov && pendingStop == Some(SetupStopDelay)
      ensures effects == old(effects) + [PublishInitial(false), ScheduleStop(SetupStopDelay)]
      ensures old(WifiOn(effects)) ==> Valid()
    {
      inImprov := false;
      effects := effects + [PublishInitial(inImprov)];
      pendingStop := Some(SetupStopDelay);
      effects := effects + [ScheduleStop(SetupStopDelay)];
      WifiOnAppend(old(effects), [PublishInitial(false), ScheduleStop(SetupStopDelay)]);
    }

    /** `set_state(s, stop_delay)`; `set_state(s)` is `stop_delay` -1.
        The state is published and forwarded to the display. Entering
        records the start time, disables WiFi and starts improv and
        advertising (which needs BLE); leaving stops advertising, at once
        for -1 and otherwise by a timer, and re-enables WiFi. */
    method SetState(s: bool, stopDelay: int, now: int)
      requires s ==> bleAvailable
      requires s && display != null && !display.improv ==> display.hasLeds
      modifies this`inImprov, this`improvStart, this`pendingStop, this`effects, display
      ensures inImprov == s && Valid()
      ensures display != null ==> display.ImprovSetTo(s) && (old(display.Valid()) ==> display.Valid())
      ensures s ==>
        improvStart == now && pendingStop == old(pendingStop) &&
        effects == old(effects) + [Publish(true), WifiDisable, ImprovStart, AdvertisingStart]
      ensures !s ==>
        improvStart == old(improvStart) &&
        pendingStop == (if stopDelay != -1 then Some(stopDelay) else old(pendingStop)) &&
        effects == old(effects) + [Publish(false)] +
          (if stopDelay != -1 then [ScheduleStop(stopDelay)] else StopAdvertisingEffects(bleAvailable)) +
          [WifiEnable]
    {
      inImprov := s;
      effects := effects + [Publish(inImprov)];
      if display != null {
        display.SetImprov(inImprov);
      }
      TriggerActions(stopDelay, now);
    }

    /** The second half of `set_state`: the actions the current state
        triggers, which leave WiFi on exactly outside improv mode. */
    method TriggerActions(stopDelay: int, now: int)
      modifies this`improvStart, this`pendingStop, this`effects
      ensures Valid()
      ensures inImprov ==>
        improvStart == now && pendingStop == old(pendingStop) &&
        effects == old(effects) + [WifiDisable, ImprovStart, AdvertisingStart]
      ensures !inImprov ==>
        improvStart == old(improvStart) &&
        pendingStop == (if stopDelay != -1 then Some(stopDelay) else old(pendingStop)) &&
        effects == old(effects) +
          (if stopDelay != -1 then [ScheduleStop(stopDelay)] else StopAdvertisingEffects(bleAvailable)) +
          [WifiEnable]
    {
      var tail: seq<Effect>;
      if inImprov {
        improvStart := now;
        tail := [WifiDisable, ImprovStart, AdvertisingStart];
      } else {
        if stopDelay != -1 {
          pendingStop := Some(stopDelay);
          tail := [ScheduleStop(stopDelay)];
        } else {
          tail := StopAdvertisingEffects(bleAvailable);
        }
        tail := tail + [WifiEnable];
      }
      effects := effects + tail;
      WifiOnAppend(old(effects), tail);
      WifiOnAppend([], tail);
    }

    /** `loop()`: nothing outside improv mode; a connected WiFi ends improv
        with advertising stopped 2 s later; otherwise improv ends once it
        has timed out. */
    method Loop(now: int, connected: bool)
      requires Valid()
      modifies this`inImprov, this`improvStart, this`pendingStop, this`effects, display
      ensures Valid()
      ensures !old(inImprov) ==> inImprov == old(inImprov) && effects == old(effects) && pendingStop == old(pendingStop)
      ensures old(inImprov) && connected ==>
        !inImprov && pendingStop == Some(SuccessStopDelay) &&
        effects == old(effects) + [Publish(false), ScheduleStop(SuccessStopDelay), WifiEnable]
      ensures old(inImprov) && !connected ==>
        (inImprov <==> !TimedOut(now, old(improvStart))) &&
        pendingStop == old(pendingStop) &&
        effects == old(effects) + if inImprov then [] else [Publish(false)] + StopAdvertisingEffects(bleAvailable) + [WifiEnable]
      ensures improvStart == old(improvStart)
      ensures display != null ==>
        if old(inImprov) && !inImprov then display.ImprovSetTo(false) && (old(display.Valid()) ==> display.Valid())
        else unchanged(display)
    {
      if !inImprov {
        return;
      }
      if connected {
        SetState(false, SuccessStopDelay, now);
        return;
      }
      var ageS := TruncDiv(now - improvStart, UsecPerSec);
      if ageS > TimeoutSecs {
        SetState(false, -1, now);
      }
    }

    /** `startImprov()`: nothing without BLE; a toggle-off when improv is
        running; otherwise the pending stop timer is cancelled and improv
        is entered. */
    method StartImprov(now: int)
      requires bleAvailable && !inImprov && display != null && !display.improv ==> display.hasLeds
      modifies this`inImprov, this`improvStart, this`pendingStop, this`effects, display
      ensures !bleAvailable ==>
        inImprov == old(inImprov) && improvStart == old(improvStart) &&
        effects == old(effects) && pendingStop == old(pendingStop)
      ensures bleAvailable ==> inImprov == !old(inImprov) && Valid()
      ensures bleAvailable && old(inImprov) ==>
        improvStart == old(improvStart) && pendingStop == old(pendingStop) &&
        effects == old(effects) + [Publish(false), AdvertisingStop, WifiEnable]
      ensures bleAvailable && !old(inImprov) ==>
        improvStart == now && pendingStop == None &&
        effects == old(effects) + [CancelStop, Publish(true), WifiDisable, ImprovStart, AdvertisingStart]
      ensures display != null ==>
        if bleAvailable then display.ImprovSetTo(inImprov) && (old(display.Valid()) ==> display.Valid())
        else unchanged(display)
    {
      if !bleAvailable {
        return;
      }
      if inImprov {
        SetState(false, -1, now);
        return;
      }
      pendingStop := None;
      effects := effects + [CancelStop];
      SetState(true, -1, now);
    }

    /** The scheduled stop timer firing: `stopAdvertising()`. */
    method StopTimerFires()
      requires pendingStop.Some?
      modifies this`pendingStop, this`effects
      ensures pendingStop == None
      ensures effects == old(effects) + StopAdvertisingEffects(bleAvailable)
      ensures old(Valid()) ==> Valid()
    {
      pendingStop := None;
      effects := effects + StopAdvertisingEffects(bleAvailable);
      WifiOnAppend(old(effects), StopAdvertisingEffects(bleAvailable));
    }
  }
}
