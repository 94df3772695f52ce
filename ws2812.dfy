/** The WS2812 light output of the ESPHome firmware (esphome/neopixel-idf.h):
    the colour is packed into a 24-bit GRB word and every bit becomes one RMT
    pulse item, most significant bit first, for each of the three LEDs. */
module Ws2812 {
  import opened CTypes
  import opened Arithmetic

  const NumLeds := 3
  const BitsPerLedCmd := 24
  const LedBufferItems := NumLeds * BitsPerLedCmd

  // Timing: the RMT channel runs at half the 80 MHz APB clock.
  const CpuFreq := 80_000_000
  const NsPerSec := 1_000_000_000
  const TicksPerSec := CpuFreq / 2
  const NsPerTick := NsPerSec / TicksPerSec

  /** `NsToTicks`: a duration in nanoseconds as whole RMT ticks, rounded down. */
  function NsToTicks(ns: nat): (ticks: nat)
    ensures ticks * NsPerTick <= ns < (ticks + 1) * NsPerTick
  {
    ns / NsPerTick
  }

  const T0H := NsToTicks(300)
  const T0L := NsToTicks(950)
  const T1H := NsToTicks(900)
  const T1L := NsToTicks(350)

  /** The tick counts the integer divisions produce. */
  lemma TimingConstants()
    ensures NsPerTick == 25 && LedBufferItems == 72
    ensures T0H == 12 && T0L == 38 && T1H == 36 && T1L == 14
  {
  }

  /** `rmt_item32_t`: a pulse of `duration0` ticks at `level0`, then
      `duration1` ticks at `level1`. */
  datatype RmtItem = RmtItem(duration0: nat, level0: nat, duration1: nat, level1: nat)

  const OneItem := RmtItem(T1H, 1, T1L, 0)
  const ZeroItem := RmtItem(T0H, 1, T0L, 0)

  /** The packing of `write_state`: green in bits 16..23, red in 8..15 and
      blue in 0..7 of `per_led`. The three fields do not overlap, so the
      `|=` of the shifted bytes is their sum. */
  function PackGrb(g: byte, r: byte, b: byte): (w: nat)
    ensures w < 0x100_0000
    ensures w / 0x1_0000 == g as int && (w / 0x100) % 0x100 == r as int && w % 0x100 == b as int
  {
    var w := g as int * 0x1_0000 + r as int * 0x100 + b as int;
    DivModUnique(w, 0x1_0000, g as int, r as int * 0x100 + b as int);
    DivModUnique(w, 0x100, g as int * 0x100 + r as int, b as int);
    DivModUnique(g as int * 0x100 + r as int, 0x100, g as int, r as int);
    w
  }

  /** `1 << (BITS_PER_LED_CMD - 1)`, the mask of the first bit sent. */
  const FirstMask := 0x80_0000

  lemma Pow2Values()
    ensures Pow2(BitsPerLedCmd - 1) == FirstMask && Pow2(BitsPerLedCmd) == 0x100_0000
  {
    assert Pow2(8) == 0x100;
    Pow2Add(8, 8);
    Pow2Add(16, 7);
    Pow2Add(16, 8);
  }

  /** `(per_led & mask) != 0` for a mask with a single bit set. */
  predicate MaskHas(w: nat, mask: nat) {
    mask > 0 && (w / mask) % 2 == 1
  }

  /** The item that sends one bit. */
  function BitItem(one: bool): (item: RmtItem)
    ensures IsOne(item) == one
  {
    TimingConstants();
    if one then OneItem else ZeroItem
  }

  /** The items the inner loop of `write_state` produces from `mask` on:
      one per step, testing `per_led & mask` and then shifting the mask right. */
  function MaskItems(w: nat, mask: nat, n: nat): (items: seq<RmtItem>)
    ensures |items| == n
  {
    if n == 0 then [] else [BitItem(MaskHas(w, mask))] + MaskItems(w, mask / 2, n - 1)
  }

  /** One step of the inner loop: the head item tests `mask`, the rest
      continue from `mask / 2`. */
  lemma MaskItemsStep(w: nat, mask: nat, n: nat)
    requires n > 0
    ensures MaskItems(w, mask, n)[0] == BitItem(MaskHas(w, mask))
    ensures MaskItems(w, mask, n)[1..] == MaskItems(w, mask / 2, n - 1)
  {
  }

  /** The 24 items of one LED. */
  function LedItems(w: nat): (items: seq<RmtItem>)
    ensures |items| == BitsPerLedCmd
  {
    MaskItems(w, FirstMask, BitsPerLedCmd)
  }

  lemma {:induction false} MaskItemsAt(w: nat, n: nat, k: nat)
    requires k < n
    ensures MaskItems(w, Pow2(n - 1), n)[k] == BitItem(MaskHas(w, Pow2(n - 1 - k)))
  {
    if k > 0 {
      DivModUnique(Pow2(n - 1), 2, Pow2(n - 2), 0);
      MaskItemsAt(w, n - 1, k - 1);
    }
  }

  /** Bits go out most significant first: item `k` of an LED is a one
      exactly when bit `23 - k` of the word is set. */
  lemma LedItemsMsbFirst(w: nat, k: nat)
    requires k < BitsPerLedCmd
    ensures LedItems(w)[k] == BitItem(MaskHas(w, Pow2(BitsPerLedCmd - 1 - k)))
  {
    Pow2Values();
    MaskItemsAt(w, BitsPerLedCmd, k);
  }

  /** The whole buffer: item `led * 24 + k` is item `k` of every LED. */
  function Frame(w: nat): (items: seq<RmtItem>)
    ensures |items| == LedBufferItems
  {
    seq(LedBufferItems, i requires 0 <= i < LedBufferItems => LedItems(w)[i % BitsPerLedCmd])
  }

  /** Item `k` of LED `led` in the buffer is item `k` of the LED's items. */
  lemma FrameAt(w: nat, led: nat, k: nat)
    requires led < NumLeds && k < BitsPerLedCmd
    ensures Frame(w)[led * BitsPerLedCmd + k] == LedItems(w)[k]
  {
    DivModUnique(led * BitsPerLedCmd + k, BitsPerLedCmd, led, k);
  }

  /** All LEDs receive the same items: the buffer repeats with period 24. */
  lemma FramePeriodic(w: nat, i: nat)
    requires i + BitsPerLedCmd < LedBufferItems
    ensures Frame(w)[i] == Frame(w)[i + BitsPerLedCmd]
  {
    assert (i + BitsPerLedCmd) % BitsPerLedCmd == i % BitsPerLedCmd;
  }

  /** What an LED reads from an item: a long high pulse is a one. */
  predicate IsOne(item: RmtItem) {
    item.duration0 == T1H
  }

  /** An LED's view of a run of items: the first item is worth `mask`, each
      later one half of the one before. */
  function DecodeWith(items: seq<RmtItem>, mask: nat): (w: nat) {
    if items == [] then 0
    else (if IsOne(items[0]) then mask else 0) + DecodeWith(items[1..], mask / 2)
  }

  /** The 24-bit word one LED receives, most significant bit first. */
  function Decode(items: seq<RmtItem>): (w: nat) {
    DecodeWith(items, FirstMask)
  }

  /** The low bits below `2m` are bit `m` and the bits below `m`. */
  lemma ModDouble(w: nat, m: nat)
    requires m > 0
    ensures w % (2 * m) == m * ((w / m) % 2) + w % m
  {
    var q, r := w / m, w % m;
    var q2, b := q / 2, q % 2;
    assert w == (2 * m) * q2 + (m * b + r) by {
      assert w == m * q + r;
      assert q == 2 * q2 + b;
      assert m * q == (2 * m) * q2 + m * b;
    }
    assert 0 <= m * b <= m by {
      assert b == 0 || b == 1;
    }
    DivModUnique(w, 2 * m, q2, m * b + r);
  }

  lemma {:induction false} MaskItemsRoundTrip(w: nat, n: nat)
    requires n > 0
    ensures DecodeWith(MaskItems(w, Pow2(n - 1), n), Pow2(n - 1)) == w % Pow2(n)
  {
    var mask := Pow2(n - 1);
    var items := MaskItems(w, mask, n);
    assert items[1..] == MaskItems(w, mask / 2, n - 1);
    assert IsOne(items[0]) == MaskHas(w, mask);
    assert DecodeWith(items, mask) == (if MaskHas(w, mask) then mask else 0) + DecodeWith(items[1..], mask / 2);
    ModDouble(w, mask);
    assert Pow2(n) == 2 * mask;
    if n == 1 {
      assert w % 1 == 0;
    } else {
      DivModUnique(mask, 2, Pow2(n - 2), 0);
      MaskItemsRoundTrip(w, n - 1);
    }
  }

  /** Round trip: decoding one LED's items recovers every 24-bit word. */
  lemma LedItemsRoundTrip(w: nat)
    requires w < 0x100_0000
    ensures Decode(LedItems(w)) == w
  {
    var mask, n := Pow2(BitsPerLedCmd - 1), BitsPerLedCmd;
    Pow2Values();
    MaskItemsRoundTrip(w, n);
    DivModUnique(w, Pow2(n), 0, w);
  }

  /** Every LED of the buffer decodes to the packed word, and so to the
      colour that was written. */
  lemma FrameRoundTrip(g: byte, r: byte, b: byte, led: nat)
    requires led < NumLeds
    ensures Decode(Frame(PackGrb(g, r, b))[led * BitsPerLedCmd .. (led + 1) * BitsPerLedCmd]) == PackGrb(g, r, b)
  {
    var w := PackGrb(g, r, b);
    var part := Frame(w)[led * BitsPerLedCmd .. (led + 1) * BitsPerLedCmd];
    forall k | 0 <= k < BitsPerLedCmd
      ensures part[k] == LedItems(w)[k]
    {
      FrameAt(w, led, k);
    }
    assert part == LedItems(w);
    LedItemsRoundTrip(w);
  }

  /** The inner loop of `write_state`: the 24 items of LED `led`, most
      significant bit first, written at `led * 24`; the rest of the buffer
      is untouched. */
  method WriteLed(buffer: array<RmtItem>, led: nat, perLed: nat)
    requires buffer.Length == LedBufferItems && led < NumLeds
    modifies buffer
    ensures forall k :: 0 <= k < BitsPerLedCmd ==> buffer[led * BitsPerLedCmd + k] == LedItems(perLed)[k]
    ensures forall i :: 0 <= i < buffer.Length && !(led * BitsPerLedCmd <= i < (led + 1) * BitsPerLedCmd) ==>
      buffer[i] == old(buffer[i])
  {
    ghost var items := LedItems(perLed);
    var mask: nat := FirstMask;
    var bit := 0;
    while bit < BitsPerLedCmd
      invariant 0 <= bit <= BitsPerLedCmd
      invariant items[bit..] == MaskItems(perLed, mask, BitsPerLedCmd - bit)
      invariant forall k :: 0 <= k < bit ==> buffer[led * BitsPerLedCmd + k] == items[k]
      invariant forall i :: 0 <= i < buffer.Length && !(led * BitsPerLedCmd <= i < (led + 1) * BitsPerLedCmd) ==>
        buffer[i] == old(buffer[i])
    {
      var bitIsSet := MaskHas(perLed, mask);
      MaskItemsStep(perLed, mask, BitsPerLedCmd - bit);
      assert items[bit] == items[bit..][0] == BitItem(bitIsSet);
      assert items[bit + 1..] == items[bit..][1..];
      buffer[led * BitsPerLedCmd + bit] := if bitIsSet then OneItem else ZeroItem;
      mask := mask / 2;
      bit := bit + 1;
    }
  }

  /** `write_state`: packs the colour and fills the RMT item buffer, LED by
      LED. Sending it (`rmt_write_items`, `rmt_wait_tx_done`) is not modelled. */
  method WriteState(g: byte, r: byte, b: byte) returns (buffer: array<RmtItem>)
    ensures fresh(buffer)
    ensures buffer[..] == Frame(PackGrb(g, r, b))
  {
    var perLed: nat := 0;
    perLed := perLed + g as int * 0x1_0000;
    perLed := perLed + r as int * 0x100;
    perLed := perLed + b as int;
    buffer := new RmtItem[LedBufferItems](_ => ZeroItem);
    var led := 0;
    while led < NumLeds
      invariant 0 <= led <= NumLeds
      invariant forall i :: 0 <= i < led * BitsPerLedCmd ==> buffer[i] == Frame(perLed)[i]
    {
      WriteLed(buffer, led, perLed);
      forall i | led * BitsPerLedCmd <= i < (led + 1) * BitsPerLedCmd
        ensures buffer[i] == Frame(perLed)[i]
      {
        FrameAt(perLed, led, i - led * BitsPerLedCmd);
      }
      led := led + 1;
    }
    assert buffer[..] == Frame(perLed);
  }
}
