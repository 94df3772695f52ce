/** The Neopixel strip driver of the Arduino firmware (src/neopixel.cpp): it
    re-derives a status from the model's CO2 reading, paints the whole strip
    in the status colour, and blinks red/blue while the status is DARK_RED. */
module NeopixelStrip {
  import opened CTypes
  import opened TrafficLight
  import SensorModel

  /** `strip->Color(r, g, b)`. */
  datatype Color = Color(r: byte, g: byte, b: byte)

  const Off := Color(0, 0, 0)
  const RedLight := Color(255, 0, 0)
  const YellowLight := Color(255, 255, 0)
  const GreenLight := Color(0, 255, 0)
  const BlueLight := Color(0, 0, 255)

  /** A strip of `n` pixels all showing `c`. */
  function Uniform(n: nat, c: Color): (s: seq<Color>)
    ensures |s| == n && forall i :: 0 <= i < n ==> s[i] == c
  {
    seq(n, _ => c)
  }

  /** The classification chain of `Neopixel::update`. Unlike the model's it
      has no zero check, and its final branch is a plain `else`. */
  function Band(co2: int, config: Thresholds): (r: Status)
    ensures r != Undefined
    ensures r == Green <==> co2 < config.yellow
    ensures r == Yellow <==> config.yellow <= co2 < config.red
    ensures r == Red <==> config.yellow <= co2 && config.red <= co2 < config.darkRed
    ensures r == DarkRed <==> config.yellow <= co2 && config.red <= co2 && config.darkRed <= co2
  {
    if co2 < config.yellow then Green
    else if co2 < config.red then Yellow
    else if co2 < config.darkRed then Red
    else DarkRed
  }

  /** For every real reading the strip agrees with the model's CO2 sub-status. */
  lemma BandAgreesWithModel(co2: int, config: Thresholds)
    requires co2 != 0
    ensures Band(co2, config) == SensorModel.Co2Status(co2, config)
  {
    var b, m := Band(co2, config), SensorModel.Co2Status(co2, config);
    assert b == Green <==> m == Green;
    assert b == Yellow <==> m == Yellow;
    assert b == Red <==> m == Red;
  }

  /** A reading of 0, which the model treats as "no reading", is classified
      by the strip like any other value: it is never UNDEFINED, and it is
      GREEN whenever the yellow threshold is positive. */
  lemma ZeroReadingIsClassified(config: Thresholds)
    ensures SensorModel.Co2Status(0, config) == Undefined
    ensures Band(0, config) != Undefined
    ensures config.yellow > 0 ==> Band(0, config) == Green
  {
  }

  /** The colour `Neopixel::update` paints for a status; RED and DARK_RED
      share plain red. */
  function StatusColor(s: Status): (c: Color)
    ensures s == Green ==> c == GreenLight
    ensures s == Yellow ==> c == YellowLight
    ensures s == Red || s == DarkRed ==> c == RedLight
    ensures s == Undefined ==> c == Off
  {
    match s
    case Green => GreenLight
    case Yellow => YellowLight
    case Red => RedLight
    case DarkRed => RedLight
    case Undefined => Off
  }

  /** After an update the strip is always lit. */
  lemma UpdateColorIsLit(co2: int, config: Thresholds)
    ensures StatusColor(Band(co2, config)) != Off
    ensures StatusColor(Band(co2, config)) in {GreenLight, YellowLight, RedLight}
  {
    var s := Band(co2, config);
    assert s != Undefined;
  }

  /** `Neopixel`: the pixel buffer of the strip, the derived status and the
      blink phase. */
  class Neopixel {
    const model: SensorModel.Model
    /** The strip's pixel colours, written by `setPixelColor`. */
    const pixels: array<Color>
    var status: Status
    var toggle: bool
    var brightness: byte
    /** Every frame sent to the strip by `show()`, oldest first. */
    ghost var shown: seq<seq<Color>>

    /** `Neopixel(model, pin, numPixel)`: the start-up sequence shows an
        empty strip, then red, yellow and green, and ends dark. */
    constructor (m: SensorModel.Model, numPixel: byte)
      ensures model == m && fresh(pixels) && pixels.Length == numPixel as int
      ensures status == Undefined && !toggle && brightness == 20
      ensures pixels[..] == Uniform(numPixel as int, Off)
      ensures shown == [Uniform(numPixel as int, Off), Uniform(numPixel as int, RedLight),
                        Uniform(numPixel as int, YellowLight), Uniform(numPixel as int, GreenLight),
                        Uniform(numPixel as int, Off)]
    {
      model := m;
      pixels := new Color[numPixel as int](_ => Off);
      toggle := false;
      brightness := 20;
      status := Undefined;
      new;
      assert pixels[..] == Uniform(numPixel as int, Off);
      shown := [pixels[..]];
      Fill(RedLight);
      Fill(YellowLight);
      Fill(GreenLight);
      Fill(Off);
      status := Undefined;
    }

    /** `fill(c)`: every pixel becomes `c`, then the strip is shown. */
    method Fill(c: Color)
      modifies pixels, this`shown
      ensures pixels[..] == Uniform(pixels.Length, c)
      ensures shown == old(shown) + [pixels[..]]
    {
      var i := 0;
      while i < pixels.Length
        invariant 0 <= i <= pixels.Length
        invariant forall k :: 0 <= k < i ==> pixels[k] == c
        invariant shown == old(shown)
      {
        pixels[i] := c;
        i := i + 1;
      }
      assert pixels[..] == Uniform(pixels.Length, c);
      shown := shown + [pixels[..]];
    }

    /** `update()`: classify the model's CO2 reading and paint the strip. */
    method Update(config: Thresholds)
      modifies this`status, pixels, this`shown
      ensures status == Band(model.co2 as int, config) && status != Undefined
      ensures pixels[..] == Uniform(pixels.Length, StatusColor(status))
      ensures shown == old(shown) + [pixels[..]]
    {
      var co2 := model.co2 as int;
      if co2 < config.yellow {
        status := Green;
      } else if co2 < config.red {
        status := Yellow;
      } else if co2 < config.darkRed {
        status := Red;
      } else {
        status := DarkRed;
      }
      Fill(StatusColor(status));
    }

    /** `timer()`: the blink phase always flips; only a DARK_RED strip is
        repainted, red and blue in turn. */
    method Timer()
      modifies this`toggle, pixels, this`shown
      ensures toggle == !old(toggle)
      ensures status == DarkRed ==>
        pixels[..] == Uniform(pixels.Length, if toggle then RedLight else BlueLight) &&
        shown == old(shown) + [pixels[..]]
      ensures status != DarkRed ==> pixels[..] == old(pixels[..]) && shown == old(shown)
    {
      toggle := !toggle;
      if status == DarkRed {
        if toggle {
          Fill(RedLight);
        } else {
          Fill(BlueLight);
        }
      }
    }
  }
}
