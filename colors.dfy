/**
 * The colour system of the kinetic-balls animation: a three-colour palette,
 * linear blending of two distinct palette entries, the `rgb(r,g,b)` strings
 * the canvas is given, and the clamped brightening/darkening used for the
 * gradient stops of each ball.
 */
module Colors {
  import opened Wrappers
  import opened Decimal

  datatype Rgb = Rgb(r: int, g: int, b: int)

  predicate InGamut(c: Rgb) {
    0 <= c.r <= 255 && 0 <= c.g <= 255 && 0 <= c.b <= 255
  }

  predicate Unsigned(c: Rgb) {
    0 <= c.r && 0 <= c.g && 0 <= c.b
  }

  /** #f58981, #ffd54f, #51bb7a. */
  const BaseColors: seq<Rgb> := [Rgb(245, 137, 129), Rgb(255, 213, 79), Rgb(81, 187, 122)]

  /** A value of `Math.random()`. */
  predicate Uniform(u: real) {
    0.0 <= u < 1.0
  }

  function Min(a: real, b: real): real { if a <= b then a else b }

  function Max(a: real, b: real): real { if a <= b then b else a }

  /** Linear interpolation from `start` (t = 0) to `end` (t = 1). */
  function Lerp(start: real, end: real, t: real): (v: real)
    ensures t == 0.0 ==> v == start
    ensures t == 1.0 ==> v == end
    ensures v - start == t * (end - start)
  {
    start * (1.0 - t) + end * t
  }

  /** For t in [0, 1] the interpolant lies between the two end points. */
  lemma LerpBetween(start: real, end: real, t: real)
    requires 0.0 <= t <= 1.0
    ensures Min(start, end) <= Lerp(start, end, t) <= Max(start, end)
  {
    var d := end - start;
    assert Lerp(start, end, t) == start + t * d;
    if d >= 0.0 {
      assert 0.0 <= t * d <= d;
    } else {
      assert d <= t * d <= 0.0;
    }
  }

  /** `Math.round`: the nearest integer, halves rounded up. */
  function Round(x: real): (n: int)
    ensures n as real - 0.5 <= x < n as real + 0.5
  {
    (x + 0.5).Floor
  }

  /** `Math.floor(Math.random() * BASE_COLORS.length)`. */
  function PickIndex(u: real): (i: nat)
    requires Uniform(u)
    ensures i < |BaseColors|
  {
    (u * 3.0).Floor
  }

  /** Each channel rounded from the interpolation of the two colours' channels. */
  function Blend(c1: Rgb, c2: Rgb, mix: real): Rgb {
    Rgb(Round(Lerp(c1.r as real, c2.r as real, mix)),
        Round(Lerp(c1.g as real, c2.g as real, mix)),
        Round(Lerp(c1.b as real, c2.b as real, mix)))
  }

  lemma RoundBetween(lo: int, hi: int, x: real)
    requires lo as real <= x <= hi as real
    ensures lo <= Round(x) <= hi
  {
  }

  function MinInt(a: int, b: int): int { if a <= b then a else b }

  function MaxInt(a: int, b: int): int { if a <= b then b else a }

  predicate ChannelsBetween(c: Rgb, c1: Rgb, c2: Rgb) {
    && MinInt(c1.r, c2.r) <= c.r <= MaxInt(c1.r, c2.r)
    && MinInt(c1.g, c2.g) <= c.g <= MaxInt(c1.g, c2.g)
    && MinInt(c1.b, c2.b) <= c.b <= MaxInt(c1.b, c2.b)
  }

  /**
   * Every blended channel lies between the two source channels, so blending
   * two in-gamut colours gives an in-gamut colour.
   */
  lemma BlendBetween(c1: Rgb, c2: Rgb, mix: real)
    requires 0.0 <= mix <= 1.0
    ensures ChannelsBetween(Blend(c1, c2, mix), c1, c2)
    ensures InGamut(c1) && InGamut(c2) ==> InGamut(Blend(c1, c2, mix))
  {
    LerpBetween(c1.r as real, c2.r as real, mix);
    RoundBetween(MinInt(c1.r, c2.r), MaxInt(c1.r, c2.r), Lerp(c1.r as real, c2.r as real, mix));
    LerpBetween(c1.g as real, c2.g as real, mix);
    RoundBetween(MinInt(c1.g, c2.g), MaxInt(c1.g, c2.g), Lerp(c1.g as real, c2.g as real, mix));
    LerpBetween(c1.b as real, c2.b as real, mix);
    RoundBetween(MinInt(c1.b, c2.b), MaxInt(c1.b, c2.b), Lerp(c1.b as real, c2.b as real, mix));
  }

  predicate AllUniform(draws: seq<real>) {
    forall k :: 0 <= k < |draws| ==> Uniform(draws[k])
  }

  /** Some draw of the retry loop picks an index other than `idx1`. */
  predicate EventuallyDiffers(draws: seq<real>, idx1: nat)
    requires AllUniform(draws)
  {
    exists k :: 0 <= k < |draws| && PickIndex(draws[k]) != idx1
  }

  lemma TailEventuallyDiffers(draws: seq<real>, idx1: nat)
    requires AllUniform(draws) && EventuallyDiffers(draws, idx1)
    requires PickIndex(draws[0]) == idx1
    ensures AllUniform(draws[1..]) && EventuallyDiffers(draws[1..], idx1)
  {
    var k :| 0 <= k < |draws| && PickIndex(draws[k]) != idx1;
    assert draws[1..][k - 1] == draws[k];
  }

  /** The position of the first draw whose index differs from `idx1`. */
  function FirstDifferent(draws: seq<real>, idx1: nat): (k: nat)
    requires AllUniform(draws) && EventuallyDiffers(draws, idx1)
    ensures k < |draws| && PickIndex(draws[k]) != idx1
    ensures forall j :: 0 <= j < k ==> PickIndex(draws[j]) == idx1
  {
    if PickIndex(draws[0]) != idx1 then 0
    else
      TailEventuallyDiffers(draws, idx1);
      1 + FirstDifferent(draws[1..], idx1)
  }

  /** The template `rgb(${r},${g},${b})` around three printed channels. */
  function RgbText(r: string, g: string, b: string): string {
    "rgb(" + (r + ("," + (g + ("," + (b + ")")))))
  }

  /** `rgb(${r},${g},${b})` for a colour. */
  function FormatRgb(c: Rgb): string {
    RgbText(IntToString(c.r), IntToString(c.g), IntToString(c.b))
  }

  /**
   * getRandomBlendedColor, with its `Math.random()` draws as parameters:
   * `first` gives idx1, `indexDraws` are the successive draws of idx2 (the
   * loop redraws while idx2 equals idx1) and `mix` is the blend ratio.
   */
  method RandomBlendedColor(first: real, indexDraws: seq<real>, mix: real)
    returns (idx1: nat, idx2: nat, color: string)
    requires Uniform(first) && AllUniform(indexDraws) && Uniform(mix)
    requires EventuallyDiffers(indexDraws, PickIndex(first))
    ensures idx1 == PickIndex(first)
    ensures idx2 == PickIndex(indexDraws[FirstDifferent(indexDraws, idx1)])
    ensures idx1 != idx2 && idx1 < |BaseColors| && idx2 < |BaseColors|
    ensures color == FormatRgb(Blend(BaseColors[idx1], BaseColors[idx2], mix))
    ensures color == FormatRgb(BlendedColor(first, indexDraws, mix))
  {
    idx1 := PickIndex(first);
    var k := 0;
    idx2 := PickIndex(indexDraws[k]);
    while idx1 == idx2
      invariant k <= FirstDifferent(indexDraws, idx1)
      invariant idx2 == PickIndex(indexDraws[k])
      decreases FirstDifferent(indexDraws, idx1) - k
    {
      k := k + 1;
      idx2 := PickIndex(indexDraws[k]);
    }
    var c1 := BaseColors[idx1];
    var c2 := BaseColors[idx2];
    var r := Round(Lerp(c1.r as real, c2.r as real, mix));
    var g := Round(Lerp(c1.g as real, c2.g as real, mix));
    var b := Round(Lerp(c1.b as real, c2.b as real, mix));
    assert Rgb(r, g, b) == Blend(c1, c2, mix);
    color := FormatRgb(Rgb(r, g, b));
  }

  /** The colour a ball is given, as a function of its draws. */
  function BlendedColor(first: real, indexDraws: seq<real>, mix: real): Rgb
    requires Uniform(first) && AllUniform(indexDraws)
    requires EventuallyDiffers(indexDraws, PickIndex(first))
  {
    var idx1 := PickIndex(first);
    Blend(BaseColors[idx1], BaseColors[PickIndex(indexDraws[FirstDifferent(indexDraws, idx1)])], mix)
  }

  /** Every colour the animation blends is in gamut and mixes two distinct palette entries. */
  lemma BlendedColorInGamut(first: real, indexDraws: seq<real>, mix: real)
    requires Uniform(first) && AllUniform(indexDraws) && Uniform(mix)
    requires EventuallyDiffers(indexDraws, PickIndex(first))
    ensures InGamut(BlendedColor(first, indexDraws, mix))
    ensures exists i, j :: 0 <= i < |BaseColors| && 0 <= j < |BaseColors| && i != j &&
                           ChannelsBetween(BlendedColor(first, indexDraws, mix), BaseColors[i], BaseColors[j])
  {
    var i := PickIndex(first);
    var j := PickIndex(indexDraws[FirstDifferent(indexDraws, i)]);
    BlendBetween(BaseColors[i], BaseColors[j], mix);
  }

  /** The digit runs of the template are the runs of its three fields. */
  lemma {:induction false} RgbTextRuns(r: string, g: string, b: string, rr: seq<nat>, rg: seq<nat>, rb: seq<nat>)
    requires ReadsAs(r, rr) && ReadsAs(g, rg) && ReadsAs(b, rb)
    ensures DigitRuns(RgbText(r, g, b)) == rr + (rg + rb)
  {
    var tail2 := "," + (b + ")");
    var tail1 := "," + (g + tail2);
    assert DigitRuns(")") == [] by {
      DigitRunsSkipsNonDigits(")", []);
      assert ")" + [] == ")";
    }
    assert DigitRuns(b + ")") == rb + [];
    assert DigitRuns(tail2) == rb by { DigitRunsSkipsNonDigits(",", b + ")"); }
    assert DigitRuns(g + tail2) == rg + rb by { assert tail2[0] == ','; }
    assert DigitRuns(tail1) == rg + rb by { DigitRunsSkipsNonDigits(",", g + tail2); }
    assert DigitRuns(r + tail1) == rr + (rg + rb) by { assert tail1[0] == ','; }
    DigitRunsSkipsNonDigits("rgb(", r + tail1);
  }

  /** The printed channels of a colour with no negative channel read back exactly. */
  lemma ParseFormatted(c: Rgb)
    requires Unsigned(c)
    ensures DigitRuns(FormatRgb(c)) == [c.r, c.g, c.b]
  {
    NumberReadsAs(c.r);
    NumberReadsAs(c.g);
    NumberReadsAs(c.b);
    RgbTextRuns(NatToString(c.r), NatToString(c.g), NatToString(c.b), [c.r], [c.g], [c.b]);
  }

  /** `Math.max(0, Math.min(255, v))`. */
  function Clamp(v: int): (c: nat)
    ensures c <= 255
    ensures 0 <= v <= 255 ==> c == v
    ensures v < 0 ==> c == 0
    ensures 255 < v ==> c == 255
  {
    var m := if 255 <= v then 255 else v;
    if 0 >= m then 0 else m
  }

  /** One channel of adjustColor's output; a missing part prints as NaN. */
  function ChannelText(parts: seq<nat>, i: nat, amount: int): string {
    if i < |parts| then NatToString(Clamp(parts[i] + amount)) else "NaN"
  }

  /**
   * adjustColor: read the digit runs of `s`, add `amount` to the first three
   * and clamp each to [0, 255]; a string without digits is returned as is.
   */
  function AdjustColor(s: string, amount: int): (r: string)
    ensures DigitRuns(s) == [] ==> r == s
  {
    var parts := DigitRuns(s);
    if parts == [] then s
    else RgbText(ChannelText(parts, 0, amount), ChannelText(parts, 1, amount), ChannelText(parts, 2, amount))
  }

  function ChannelRuns(parts: seq<nat>, i: nat, amount: int): seq<nat> {
    if i < |parts| then [Clamp(parts[i] + amount)] else []
  }

  lemma ChannelReadsAs(parts: seq<nat>, i: nat, amount: int)
    ensures ReadsAs(ChannelText(parts, i, amount), ChannelRuns(parts, i, amount))
  {
    if i < |parts| {
      NumberReadsAs(Clamp(parts[i] + amount));
    } else {
      forall t: string | t != [] && !IsDigit(t[0])
        ensures DigitRuns("NaN" + t) == [] + DigitRuns(t)
      {
        DigitRunsSkipsNonDigits("NaN", t);
      }
    }
  }

  /** The digit runs of adjustColor's output are the runs of its three channels. */
  lemma AdjustColorRuns(s: string, amount: int)
    requires DigitRuns(s) != []
    ensures DigitRuns(AdjustColor(s, amount))
            == ChannelRuns(DigitRuns(s), 0, amount) + (ChannelRuns(DigitRuns(s), 1, amount) + ChannelRuns(DigitRuns(s), 2, amount))
  {
    var parts := DigitRuns(s);
    ChannelReadsAs(parts, 0, amount);
    ChannelReadsAs(parts, 1, amount);
    ChannelReadsAs(parts, 2, amount);
    RgbTextRuns(ChannelText(parts, 0, amount), ChannelText(parts, 1, amount), ChannelText(parts, 2, amount),
                ChannelRuns(parts, 0, amount), ChannelRuns(parts, 1, amount), ChannelRuns(parts, 2, amount));
  }

  /**
   * Reading the adjusted colour back gives the clamped channels, one per part
   * present (at most three), so every channel adjustColor prints is in [0, 255].
   */
  lemma AdjustColorReadsBack(s: string, amount: int)
    requires DigitRuns(s) != []
    ensures var parts := DigitRuns(s);
            var runs := DigitRuns(AdjustColor(s, amount));
            && |runs| == (if |parts| < 3 then |parts| else 3)
            && forall i :: 0 <= i < |runs| ==> runs[i] == Clamp(parts[i] + amount) && runs[i] <= 255
  {
    AdjustColorRuns(s, amount);
  }

  function Shift(c: Rgb, amount: int): (d: Rgb)
    ensures InGamut(d)
  {
    Rgb(Clamp(c.r + amount), Clamp(c.g + amount), Clamp(c.b + amount))
  }

  /** On a formatted colour, adjustColor shifts every channel and clamps it. */
  lemma AdjustFormatted(c: Rgb, amount: int)
    requires Unsigned(c)
    ensures AdjustColor(FormatRgb(c), amount) == FormatRgb(Shift(c, amount))
  {
    ParseFormatted(c);
    var parts, d := DigitRuns(FormatRgb(c)), Shift(c, amount);
    assert ChannelText(parts, 0, amount) == IntToString(d.r);
    assert ChannelText(parts, 1, amount) == IntToString(d.g);
    assert ChannelText(parts, 2, amount) == IntToString(d.b);
  }

  /** Amount 0 is the identity on in-gamut colours. */
  lemma AdjustByZero(c: Rgb)
    requires InGamut(c)
    ensures AdjustColor(FormatRgb(c), 0) == FormatRgb(c)
  {
    AdjustFormatted(c, 0);
  }

  datatype Stop = Stop(offset: real, color: string)

  predicate IsLight(theme: Option<string>) {
    theme == Some("light")
  }

  /**
   * The radial-gradient stops of a ball of colour `color`: light theme
   * bright -> light -> faded -> light; any other theme bright -> base -> dark.
   */
  function GradientStops(theme: Option<string>, color: string): (stops: seq<Stop>)
    ensures |stops| == if IsLight(theme) then 4 else 3
    ensures stops[0].offset == 0.0 && stops[|stops| - 1].offset == 1.0
    ensures forall i, j :: 0 <= i < j < |stops| ==> stops[i].offset < stops[j].offset
    ensures stops[0].color == AdjustColor(color, 100)
  {
    if IsLight(theme) then
      [Stop(0.0, AdjustColor(color, 100)), Stop(0.2, AdjustColor(color, 50)),
       Stop(0.6, AdjustColor(color, 10)), Stop(1.0, AdjustColor(color, 50))]
    else
      [Stop(0.0, AdjustColor(color, 100)), Stop(0.3, color), Stop(1.0, AdjustColor(color, -50))]
  }

  /**
   * For a ball colour printed by the animation, every stop is the ball
   * colour shifted by the stop's amount and clamped, printed again: a
   * well-formed in-gamut `rgb(...)` string.
   */
  lemma GradientStopsShifted(theme: Option<string>, c: Rgb)
    requires InGamut(c)
    ensures var f := FormatRgb(c);
            IsLight(theme) ==>
              GradientStops(theme, f) == [Stop(0.0, FormatRgb(Shift(c, 100))), Stop(0.2, FormatRgb(Shift(c, 50))),
                                          Stop(0.6, FormatRgb(Shift(c, 10))), Stop(1.0, FormatRgb(Shift(c, 50)))]
    ensures var f := FormatRgb(c);
            !IsLight(theme) ==>
              GradientStops(theme, f) == [Stop(0.0, FormatRgb(Shift(c, 100))), Stop(0.3, FormatRgb(c)),
                                          Stop(1.0, FormatRgb(Shift(c, -50)))]
  {
    AdjustFormatted(c, 100);
    if IsLight(theme) {
      AdjustFormatted(c, 50);
      AdjustFormatted(c, 10);
    } else {
      AdjustFormatted(c, -50);
    }
  }
}
