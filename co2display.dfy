/** The SSD1306 display component of the ESPHome firmware
    (esphome/custom_components/co2display/co2display.h). It keeps the latest
    readings, drives the addressable LEDs by building one light call per
    update, and shows either the CO2 screen or, in improv (WiFi setup) mode,
    the setup URL with a QR code. */
module DisplayComponent {
  import opened CTypes

  datatype Option<T> = None | Some(value: T)

  /** `SETUP_URL`. */
  const SetupUrl := "https://co2mon.nz/setup"

  /** `qrcodegen_Ecc_LOW` and the other error-correction levels. */
  datatype Ecc = Low | Medium | Quartile | High

  /** The QR object `set_improv` allocates: its value and its error-correction level. */
  datatype QrCode = QrCode(value: string, ecc: Ecc)

  const SetupQr := QrCode(SetupUrl, Low)

  /** An RGB triple of a light call, each channel in 0.0 .. 1.0. */
  datatype Rgb = Rgb(r: real, g: real, b: real)

  const BlueRgb := Rgb(0.0, 0.0, 1.0)
  const GreenRgb := Rgb(0.0, 1.0, 0.0)
  const AmberRgb := Rgb(1.0, 0.7, 0.0)
  const RedRgb := Rgb(1.0, 0.0, 0.0)

  /** A performed `LightCall`: the fields it set, `None` where it left the
      light's current value. */
  datatype LightCall = LightCall(save: bool, brightness: Option<real>, state: Option<bool>, rgb: Option<Rgb>)

  /** The values of the three restoring globals `co2Green`, `co2Orange` and
      `co2Red` at the moment of the call. */
  datatype LedThresholds = LedThresholds(green: int, orange: int, red: int)

  /** `co2 < t` on a float and an int: false whenever the float is NaN. */
  predicate Below(x: Float, t: int) {
    x.Num? && x.value < t as real
  }

  /** `co2 >= t`: also false for NaN. */
  predicate AtLeast(x: Float, t: int) {
    x.Num? && x.value >= t as real
  }

  /** The light call `updateLeds(brightness)` performs. It never saves,
      sets the brightness only for an argument other than -1, and sets an
      on/off state exactly when the display is in improv mode or the reading
      is a number: a NaN reading falls through every comparison. */
  function LedCall(improv: bool, co2: Float, t: LedThresholds, brightness: real): (c: LightCall)
    ensures !c.save
    ensures c.brightness == if brightness != -1.0 then Some(brightness) else None
    ensures c.state.Some? <==> improv || co2.Num?
    ensures c.rgb.Some? ==> c.state == Some(true)
  {
    var b := if brightness != -1.0 then Some(brightness) else None;
    if improv then LightCall(false, b, Some(true), Some(BlueRgb))
    else if Below(co2, t.green) then LightCall(false, b, Some(false), None)
    else if Below(co2, t.orange) then LightCall(false, b, Some(true), Some(GreenRgb))
    else if Below(co2, t.red) then LightCall(false, b, Some(true), Some(AmberRgb))
    else if AtLeast(co2, t.red) then LightCall(false, b, Some(true), Some(RedRgb))
    else LightCall(false, b, None, None)
  }

  /** In improv mode the LEDs are switched on in blue, whatever the reading
      and the thresholds. */
  lemma ImprovOverridesReading(co2: Float, co2': Float, t: LedThresholds, t': LedThresholds, brightness: real)
    ensures LedCall(true, co2, t, brightness) == LedCall(true, co2', t', brightness)
    ensures LedCall(true, co2, t, brightness).state == Some(true)
    ensures LedCall(true, co2, t, brightness).rgb == Some(BlueRgb)
  {
  }

  /** Outside improv mode a numeric reading switches the LEDs on exactly
      when it reaches the green threshold. */
  lemma LedsOnIff(co2: real, t: LedThresholds, brightness: real)
    ensures LedCall(false, Num(co2), t, brightness).state == Some(co2 >= t.green as real)
    ensures LedCall(false, Num(co2), t, brightness).state == Some(false) ==>
      LedCall(false, Num(co2), t, brightness).rgb == None
  {
  }

  /** The colour of a call, ranked: off (or no state) 0, green 1, amber 2,
      red 3, blue (improv) 4. */
  function Severity(c: LightCall): (n: nat)
    ensures n <= 4
    ensures n == 0 <==> c.state != Some(true) || c.rgb.None?
  {
    if c.state != Some(true) || c.rgb.None? then 0
    else if c.rgb.value == GreenRgb then 1
    else if c.rgb.value == AmberRgb then 2
    else if c.rgb.value == RedRgb then 3
    else 4
  }

  /** With ordered thresholds the LED colour only grows more alarming as the
      reading rises, and the bands are those of the thresholds. */
  lemma LedColourMonotone(lo: real, hi: real, t: LedThresholds, brightness: real)
    requires t.green <= t.orange <= t.red
    requires lo <= hi
    ensures Severity(LedCall(false, Num(lo), t, brightness)) <= Severity(LedCall(false, Num(hi), t, brightness))
    ensures Severity(LedCall(false, Num(hi), t, brightness)) == 3 <==> hi >= t.red as real
    ensures Severity(LedCall(false, Num(hi), t, brightness)) == 2 <==> t.orange as real <= hi < t.red as real
    ensures Severity(LedCall(false, Num(hi), t, brightness)) == 1 <==> t.green as real <= hi < t.orange as real
  {
  }

  /** For any thresholds, ordered or not, each colour is the first match of
      the `updateLeds` chain: green below orange, amber below red once past
      orange, red once past all three. */
  lemma LedColourBands(co2: real, t: LedThresholds, brightness: real)
    ensures LedCall(false, Num(co2), t, brightness).rgb == Some(GreenRgb) <==>
      t.green as real <= co2 < t.orange as real
    ensures LedCall(false, Num(co2), t, brightness).rgb == Some(AmberRgb) <==>
      t.green as real <= co2 && t.orange as real <= co2 < t.red as real
    ensures LedCall(false, Num(co2), t, brightness).rgb == Some(RedRgb) <==>
      t.green as real <= co2 && t.orange as real <= co2 && t.red as real <= co2
  {
  }

  /** What `writer` draws: the improv screen (URL, "WiFi", "Setup" and the
      QR code when one exists) or the CO2 screen (a WiFi mark, the reading,
      temperature and humidity). */
  datatype Screen =
    | ImprovScreen(url: string, code: Option<QrCode>)
    | Co2Screen(wifiMark: string, co2: Float, temperature: Float, humidity: Float)

  /** `Co2Display`. The pointers to the LEDs and to the QR object become
      `hasLeds` and an optional value; the light's own current brightness is
      `lightBrightness`, and every light call performed is logged in `calls`. */
  class Co2Display {
    var co2: Float
    var temperature: Float
    var humidity: Float
    var wifi: bool
    var improv: bool
    /** `leds != NULL`. */
    var hasLeds: bool
    var lightBrightness: real
    /** The brightness cached when improv mode is entered. */
    var oldBrightness: real
    var qr: Option<QrCode>
    var thresholds: LedThresholds
    var calls: seq<LightCall>

    /** A QR code exists exactly while improv mode is on. */
    predicate Valid()
      reads this
    {
      qr == if improv then Some(SetupQr) else None
    }

    /** A display not in improv mode, with nothing performed yet. */
    constructor (leds: bool, t: LedThresholds, brightness: real)
      ensures hasLeds == leds && thresholds == t && lightBrightness == brightness
      ensures !improv && !wifi && qr == None && calls == [] && Valid()
    {
      co2, temperature, humidity := NaN, NaN, NaN;
      wifi, improv := false, false;
      hasLeds := leds;
      lightBrightness, oldBrightness := brightness, brightness;
      qr := None;
      thresholds := t;
      calls := [];
    }

    /** `updateLeds(brightness)`: nothing without LEDs; otherwise builds the
        call field by field and performs it. */
    method UpdateLeds(brightness: real)
      modifies this`calls, this`lightBrightness
      ensures !hasLeds ==> calls == old(calls) && lightBrightness == old(lightBrightness)
      ensures hasLeds ==> calls == old(calls) + [LedCall(improv, co2, thresholds, brightness)]
      ensures hasLeds && brightness != -1.0 ==> lightBrightness == brightness
      ensures brightness == -1.0 ==> lightBrightness == old(lightBrightness)
    {
      if !hasLeds {
        return;
      }
      var action := LightCall(false, None, None, None);
      if brightness != -1.0 {
        action := action.(brightness := Some(brightness));
      }
      if improv {
        action := action.(state := Some(true), rgb := Some(BlueRgb));
      } else if Below(co2, thresholds.green) {
        action := action.(state := Some(false));
      } else if Below(co2, thresholds.orange) {
        action := action.(state := Some(true), rgb := Some(GreenRgb));
      } else if Below(co2, thresholds.red) {
        action := action.(state := Some(true), rgb := Some(AmberRgb));
      } else if AtLeast(co2, thresholds.red) {
        action := action.(state := Some(true), rgb := Some(RedRgb));
      }
      calls := calls + [action];
      if action.brightness.Some? {
        lightBrightness := action.brightness.value;
      }
    }

    /** `set_co2(v)`: store the reading, then recompute the LEDs without
        touching their brightness. */
    method SetCo2(v: Float)
      modifies this`co2, this`calls, this`lightBrightness
      ensures co2 == v && lightBrightness == old(lightBrightness)
      ensures calls == old(calls) + if hasLeds then [LedCall(improv, v, thresholds, -1.0)] else []
    {
      co2 := v;
      UpdateLeds(-1.0);
    }

    /** The display after `set_improv(v)`, relative to before: nothing
        changes when the mode already is `v`. Entering improv caches the
        light's brightness, recomputes the LEDs and creates the setup QR
        code; leaving recomputes the LEDs and drops the QR code. Both paths
        pass -1, so the brightness itself never changes, and the readings,
        the thresholds and the LED pointer are left alone. */
    twostate predicate ImprovSetTo(v: bool)
      reads this
    {
      && improv == v
      && co2 == old(co2) && temperature == old(temperature) && humidity == old(humidity)
      && wifi == old(wifi) && hasLeds == old(hasLeds) && thresholds == old(thresholds)
      && lightBrightness == old(lightBrightness)
      && (v == old(improv) ==> qr == old(qr) && calls == old(calls) && oldBrightness == old(oldBrightness))
      && (v != old(improv) ==>
            && qr == (if v then Some(SetupQr) else None)
            && calls == old(calls) + (if hasLeds then [LedCall(v, co2, thresholds, -1.0)] else [])
            && oldBrightness == (if v then old(lightBrightness) else old(oldBrightness)))
    }

    /** `set_improv(v)`. Entering dereferences the LED pointer, so LEDs must
        be attached. */
    method SetImprov(v: bool)
      requires v && !improv ==> hasLeds
      modifies this`improv, this`oldBrightness, this`qr, this`calls, this`lightBrightness
      ensures ImprovSetTo(v)
      ensures old(Valid()) ==> Valid()
    {
      if v == improv {
        return;
      }
      improv := v;
      if improv {
        oldBrightness := lightBrightness;
        UpdateLeds(-1.0);
        qr := Some(QrCode(SetupUrl, Low));
      } else {
        UpdateLeds(-1.0);
        qr := None;
      }
    }

    /** `writer`: the improv screen exactly in improv mode. */
    function Writer(): (s: Screen)
      reads this
      ensures s.ImprovScreen? <==> improv
      ensures s.ImprovScreen? ==> s.url == SetupUrl && s.code == qr
      ensures s.Co2Screen? ==> s.co2 == co2 && (s.wifiMark == "W" <==> wifi)
    {
      if improv then ImprovScreen(SetupUrl, qr)
      else Co2Screen(if wifi then "W" else "-", co2, temperature, humidity)
    }
  }

  /** A valid display in improv mode always shows the setup QR code, and
      outside improv mode always the reading. */
  lemma ValidScreen(d: Co2Display)
    requires d.Valid()
    ensures d.improv ==> d.Writer() == ImprovScreen(SetupUrl, Some(SetupQr))
    ensures !d.improv ==> d.Writer().Co2Screen? && d.Writer().co2 == d.co2
  {
  }
}
