/** Flight-control words: a surface code and a deflection in -1..1 carried as 0..1000, over exact reals. */
module ControlValues {
  import opened Binary
  import opened Text
  import opened Wrappers

  const SPAN := 500
  const MAX := 1000

  /** Round to the nearest integer, halves to the even one. */
  function Round(x: real): (n: int)
    ensures -0.5 <= n as real - x <= 0.5
  {
    var below := x.Floor;
    var part := x - below as real;
    if part < 0.5 then below
    else if part > 0.5 then below + 1
    else if below % 2 == 0 then below
    else below + 1
  }

  function Clamp(x: real, low: real, high: real): (y: real)
    requires low <= high
  {
    if x < low then low else if x > high then high else x
  }

  function EncodeControlValue(value: real): (n: int)
    ensures 0 <= n <= MAX
  {
    var scaled := Round((value + 1.0) * SPAN as real);
    if scaled < 0 then 0 else if scaled > MAX then MAX else scaled
  }

  function DecodeControlValue(scaled: int): (value: real)
    ensures -1.0 <= value <= 1.0
  {
    Clamp(scaled as real / SPAN as real - 1.0, -1.0, 1.0)
  }

  lemma RoundMonotone(x: real, y: real)
    requires x <= y
    ensures Round(x) <= Round(y)
  {
    if x.Floor == y.Floor {
      assert x - x.Floor as real <= y - y.Floor as real;
    }
  }

  lemma RoundOdd(x: real)
    ensures Round(1000.0 - x) == 1000 - Round(x)
  {
    var below := x.Floor;
    var part := x - below as real;
    if part == 0.0 {
      assert (1000.0 - x).Floor == 1000 - below;
    } else {
      assert (1000.0 - x).Floor == 999 - below;
    }
  }

  lemma RoundWhole(n: int)
    ensures Round(n as real) == n
  {
  }

  /** A value comes back within half a count, one thousandth, of its clamp to -1..1. */
  lemma ControlValueAccuracy(value: real)
    ensures -0.001 <= DecodeControlValue(EncodeControlValue(value)) - Clamp(value, -1.0, 1.0) <= 0.001
  {
    var exact := (value + 1.0) * 500.0;
    var scaled := Round(exact);
    var n := EncodeControlValue(value);
    assert n as real / 500.0 - 1.0 == (n as real - 500.0) / 500.0;
  }

  /** Encoding keeps the order of values. */
  lemma EncodeMonotone(a: real, b: real)
    requires a <= b
    ensures EncodeControlValue(a) <= EncodeControlValue(b)
  {
    RoundMonotone((a + 1.0) * SPAN as real, (b + 1.0) * SPAN as real);
  }

  /** Encoding is symmetric about the centre 500: opposite deflections get opposite counts. */
  lemma EncodeOdd(value: real)
    ensures EncodeControlValue(-value) == MAX - EncodeControlValue(value)
  {
    assert (-value + 1.0) * 500.0 == 1000.0 - (value + 1.0) * 500.0;
    RoundOdd((value + 1.0) * 500.0);
  }

  /** Exactly the counts 0..1000 survive decoding and encoding again. */
  lemma EncodeAfterDecode(n: int)
    ensures EncodeControlValue(DecodeControlValue(n)) == n <==> 0 <= n <= MAX
  {
    if 0 <= n <= MAX {
      var x := n as real / 500.0;
      assert DecodeControlValue(n) == x - 1.0;
      assert (x - 1.0 + 1.0) * 500.0 == n as real;
      RoundWhole(n);
    }
  }

  // ---------------------------------------------------------------- data words

  /** The surface codes, in order; a surface's code is its position plus one. */
  const SURFACES := ["aileron", "elevator", "rudder", "throttle", "flaps", "speedbrake", "gear"]

  function CodeOf(surface: string): (code: nat)
    ensures surface in SURFACES <==> 1 <= code <= 7
    ensures code <= 7
    ensures 1 <= code ==> SURFACES[code - 1] == surface
  {
    if surface == "aileron" then assert surface == SURFACES[0]; 1
    else if surface == "elevator" then assert surface == SURFACES[1]; 2
    else if surface == "rudder" then assert surface == SURFACES[2]; 3
    else if surface == "throttle" then assert surface == SURFACES[3]; 4
    else if surface == "flaps" then assert surface == SURFACES[4]; 5
    else if surface == "speedbrake" then assert surface == SURFACES[5]; 6
    else if surface == "gear" then assert surface == SURFACES[6]; 7
    else 0
  }

  /** The surface's name is taken in any case. */
  function ControlInputDataWords(surface: string, value: real): (r: Result<seq<string>>)
  {
    var code := CodeOf(Lower(surface));
    if code == 0 then ValueError else Ok([Format(code, 16), Format(EncodeControlValue(value), 16)])
  }

  /** The receiver's reading of the two words. */
  function ReadControlInput(words: seq<string>): (r: Result<(string, real)>)
    requires |words| == 2 && AllBits(words[0]) && AllBits(words[1])
  {
    var code := Parse(words[0]);
    if 1 <= code <= 7 then Ok((SURFACES[code - 1], DecodeControlValue(Parse(words[1])))) else ValueError
  }

  /** A control input is refused exactly for an unknown surface; otherwise it goes out as two 16-bit words
      from which the receiver reads the same surface and the value to within one thousandth of its clamp. */
  lemma ControlInputRoundTrip(surface: string, value: real)
    ensures var r := ControlInputDataWords(surface, value);
            && (r.ValueError? <==> Lower(surface) !in SURFACES)
            && (r.Ok? ==>
                 && |r.value| == 2 && |r.value[0]| == 16 && |r.value[1]| == 16
                 && AllBits(r.value[0]) && AllBits(r.value[1])
                 && var back := ReadControlInput(r.value);
                    && back.Ok? && back.value.0 == Lower(surface)
                    && -0.001 <= back.value.1 - Clamp(value, -1.0, 1.0) <= 0.001)
  {
    hide Round, Lower, DecodeControlValue, Format, Parse, EncodeControlValue;
    var code := CodeOf(Lower(surface));
    ParseFormat(code, 16);
    ParseFormat(EncodeControlValue(value), 16);
    Small16(code);
    Small16(EncodeControlValue(value));
    ControlValueAccuracy(value);
  }

  lemma Small16(n: nat)
    requires n <= 1000
    ensures |Format(n, 16)| == 16
  {
    FormatWidth(n, 16);
    Pow2Sum(8, 8);
    assert Pow2(8) == 256 by {
      assert Pow2(1) == 2 && Pow2(2) == 4 && Pow2(3) == 8 && Pow2(4) == 16 && Pow2(5) == 32 && Pow2(6) == 64 && Pow2(7) == 128;
    }
  }
}
