/** The HUB75 LED-matrix driver of the Arduino firmware (src/hub75.cpp). The
    64x32 panel has three regions: a smiley (x 0..31), a column of up to four
    CO2 digits (x 35, rows y = 24, 16, 8, 0) and a status message (x 48..63).
    The panel is modelled by what each region shows. */
module Hub75Panel {
  import opened CTypes
  import opened TrafficLight
  import SensorModel
  import opened Arithmetic

  /** What a bitmap region shows: nothing (cleared by `fillRect`) or the
      bitmap of a status, i.e. entry `Rank(s)` of `smileys` or `messages`. */
  datatype Picture = Blank | Bitmap(status: Status)

  /** `digits[d]` drawn at row `y` of the reading column. */
  datatype DigitDraw = DigitDraw(y: int, digit: int)

  /** The place value of a digit row: the top row holds the thousands. */
  function RowWeight(y: int): int {
    if y == 24 then 1000 else if y == 16 then 100 else if y == 8 then 10 else 1
  }

  /** The value the drawn digits show, each weighted by its row. */
  function Shown(ds: seq<DigitDraw>): int {
    if ds == [] then 0 else ds[0].digit * RowWeight(ds[0].y) + Shown(ds[1..])
  }

  /** The row `y` of the reading column, drawn only when the reading
      exceeds `above`: the digit at the row's place value. */
  function Row(n: int, above: int, y: int, place: int): seq<DigitDraw>
    requires place > 0
  {
    if n > above then [DigitDraw(y, (n / place) % 10)] else []
  }

  /** The digits `HUB75::update` draws for a reading, top row first: four 9s
      when the reading has more than four digits, otherwise its decimal
      digits without leading zeros (none at all for 0). */
  function DigitRows(co2: u16): (ds: seq<DigitDraw>)
    ensures co2 > 9999 ==> ds == [DigitDraw(24, 9), DigitDraw(16, 9), DigitDraw(8, 9), DigitDraw(0, 9)]
    ensures co2 == 0 ==> ds == []
    ensures forall i :: 0 <= i < |ds| ==> 0 <= ds[i].digit <= 9
    ensures co2 <= 9999 ==>
      (DigitDraw(24, (co2 as int / 1000) % 10) in ds <==> co2 > 999) &&
      (DigitDraw(16, (co2 as int / 100) % 10) in ds <==> co2 > 99) &&
      (DigitDraw(8, (co2 as int / 10) % 10) in ds <==> co2 > 9) &&
      (DigitDraw(0, co2 as int % 10) in ds <==> co2 > 0)
    ensures co2 <= 9999 ==>
      forall d :: d in ds ==>
        d in [DigitDraw(24, (co2 as int / 1000) % 10), DigitDraw(16, (co2 as int / 100) % 10),
              DigitDraw(8, (co2 as int / 10) % 10), DigitDraw(0, co2 as int % 10)]
    ensures |ds| == if co2 > 999 then 4 else if co2 > 99 then 3 else if co2 > 9 then 2 else if co2 > 0 then 1 else 0
  {
    var n := co2 as int;
    if n > 9999 then
      [DigitDraw(24, 9), DigitDraw(16, 9), DigitDraw(8, 9), DigitDraw(0, 9)]
    else
      Row(n, 999, 24, 1000) + Row(n, 99, 16, 100) + Row(n, 9, 8, 10) + Row(n, 0, 0, 1)
  }

  lemma {:induction false} ShownAppend(a: seq<DigitDraw>, b: seq<DigitDraw>)
    ensures Shown(a + b) == Shown(a) + Shown(b)
  {
    if a == [] {
      assert a + b == b;
    } else {
      assert (a + b)[1..] == a[1..] + b;
      ShownAppend(a[1..], b);
    }
  }

  /** For every reading the panel can show exactly, the drawn digits read
      back as the reading, the top drawn digit is not a leading zero, and
      each row is drawn at most once, top to bottom. */
  lemma DigitRowsShowReading(co2: u16)
    requires 0 < co2 <= 9999
    ensures Shown(DigitRows(co2)) == co2 as int
    ensures DigitRows(co2) != [] && DigitRows(co2)[0].digit != 0
    ensures forall i, j :: 0 <= i < j < |DigitRows(co2)| ==> DigitRows(co2)[i].y > DigitRows(co2)[j].y
  {
    DigitRowsValue(co2);
    DigitRowsOrdered(co2);
  }

  lemma DigitRowsValue(co2: u16)
    requires 0 < co2 <= 9999
    ensures Shown(DigitRows(co2)) == co2 as int
  {
    var n := co2 as int;
    var d3, d2, d1, d0 := Row(n, 999, 24, 1000), Row(n, 99, 16, 100), Row(n, 9, 8, 10), Row(n, 0, 0, 1);
    assert DigitRows(co2) == d3 + d2 + d1 + d0;
    ShownAppend(d3 + d2 + d1, d0);
    ShownAppend(d3 + d2, d1);
    ShownAppend(d3, d2);
    DecimalExpansion(n);
  }

  lemma DigitRowsOrdered(co2: u16)
    requires 0 < co2 <= 9999
    ensures DigitRows(co2) != [] && DigitRows(co2)[0].digit != 0
    ensures forall i, j :: 0 <= i < j < |DigitRows(co2)| ==> DigitRows(co2)[i].y > DigitRows(co2)[j].y
  {
    var n := co2 as int;
    DecimalExpansion(n);
    var ds := DigitRows(co2);
    if n > 999 {
      assert ds == [DigitDraw(24, (n / 1000) % 10), DigitDraw(16, (n / 100) % 10), DigitDraw(8, (n / 10) % 10), DigitDraw(0, n % 10)];
    } else if n > 99 {
      assert ds == [DigitDraw(16, (n / 100) % 10), DigitDraw(8, (n / 10) % 10), DigitDraw(0, n % 10)];
    } else if n > 9 {
      assert ds == [DigitDraw(8, (n / 10) % 10), DigitDraw(0, n % 10)];
    } else {
      assert ds == [DigitDraw(0, n % 10)];
    }
  }

  /** The four-digit decimal expansion, with the digits that lie above the
      leading one equal to zero. */
  lemma DecimalExpansion(n: int)
    requires 0 < n <= 9999
    ensures n == (if n > 999 then 1000 * ((n / 1000) % 10) else 0)
               + (if n > 99 then 100 * ((n / 100) % 10) else 0)
               + (if n > 9 then 10 * ((n / 10) % 10) else 0)
               + n % 10
    ensures n > 999 ==> (n / 1000) % 10 != 0
    ensures 99 < n <= 999 ==> (n / 100) % 10 != 0
    ensures 9 < n <= 99 ==> (n / 10) % 10 != 0
    ensures n <= 9 ==> n % 10 != 0
  {
    var q1, d := n / 10, n % 10;
    var q2, c := q1 / 10, q1 % 10;
    var q3, b := q2 / 10, q2 % 10;
    DivModUnique(n, 100, q2, 10 * c + d);
    DivModUnique(n, 1000, q3, 100 * b + 10 * c + d);
    assert n == 1000 * q3 + 100 * b + 10 * c + d;
    assert q3 < 10;
    if n <= 999 {
      assert q3 == 0;
    }
    if n <= 99 {
      assert q2 == 0;
    }
    if n <= 9 {
      assert q1 == 0;
    }
  }

  /** The HUB75 panel. */
  class Hub75 {
    const model: SensorModel.Model
    var smiley: Picture
    /** The digits shown in the reading column, top row first. */
    var reading: seq<DigitDraw>
    var message: Picture
    var brightness: byte
    var toggle: bool

    /** `HUB75(model)`: the panel starts blank at the configured brightness. */
    constructor (m: SensorModel.Model, configBrightness: byte)
      ensures model == m && brightness == configBrightness && !toggle
      ensures smiley == Blank && reading == [] && message == Blank
    {
      model := m;
      smiley, reading, message := Blank, [], Blank;
      brightness := configBrightness;
      toggle := false;
    }

    /** `update(mask, oldStatus, newStatus)`: the smiley is replaced only on a
        status change; the reading and the message are redrawn every time.
        The mask is not used. */
    method Update(mask: u16, oldStatus: Status, newStatus: Status, configBrightness: byte)
      modifies this`smiley, this`reading, this`message, this`brightness
      ensures brightness == configBrightness
      ensures smiley == if oldStatus != newStatus then Bitmap(newStatus) else old(smiley)
      ensures reading == DigitRows(model.co2)
      ensures message == Bitmap(newStatus)
    {
      brightness := configBrightness;
      if oldStatus != newStatus {
        smiley := Blank;
        smiley := Bitmap(newStatus);
      }
      // fillRect(33, 0, 32, 32) clears both the reading and the message.
      reading, message := [], Blank;
      var co2 := model.co2 as int;
      if co2 > 9999 {
        reading := reading + [DigitDraw(24, 9)];
        reading := reading + [DigitDraw(16, 9)];
        reading := reading + [DigitDraw(8, 9)];
        reading := reading + [DigitDraw(0, 9)];
      } else {
        if co2 > 999 {
          reading := reading + [DigitDraw(24, (co2 / 1000) % 10)];
        }
        if co2 > 99 {
          reading := reading + [DigitDraw(16, (co2 / 100) % 10)];
        }
        if co2 > 9 {
          reading := reading + [DigitDraw(8, (co2 / 10) % 10)];
        }
        if co2 > 0 {
          reading := reading + [DigitDraw(0, co2 % 10)];
        }
      }
      message := Bitmap(newStatus);
    }

    /** `timer()`: only while the model is DARK_RED the smiley blinks (drawn
        when the phase is set, cleared when it is not) and the phase flips. */
    method Timer()
      modifies this`smiley, this`toggle
      ensures model.status == DarkRed ==>
        toggle == !old(toggle) && smiley == (if old(toggle) then Bitmap(DarkRed) else Blank)
      ensures model.status != DarkRed ==> toggle == old(toggle) && smiley == old(smiley)
    {
      if model.status == DarkRed {
        if toggle {
          smiley := Bitmap(model.status);
        } else {
          smiley := Blank;
        }
        toggle := !toggle;
      }
    }
  }
}
