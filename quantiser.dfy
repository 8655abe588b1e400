/** The per-IC stage of a beam-table row (services/physics.ts:183-221): each IC of
    the beamformer turns the element's theoretical delay or phase into a target
    inside its own range, quantises the target to an integer code of `lsb` steps
    and reports the realised value, the code in decimal and hex, and the error. */
module Quantiser {
  import opened Types
  import opened JsNumber

  /** The four cells one IC adds to a row: `<name>_Actual_<unit>`, `<name>_Code_Dec`,
      `<name>_Code_Hex` and `<name>_Error_<unit>`, with unit "ps" or "deg". */
  datatype StageOutput = StageOutput(
    name: string,
    unit: string,
    actual: real,
    codeDec: int,
    codeHex: string,
    error: real)

  /** The stage input after polarity and offset: an inverted stage counts down from
      its `max`, and the static offset is added afterwards in both polarities. */
  function Adjusted(ic: ICConfig, combined: real): (a: real)
    ensures ic.polarity == Normal ==> a - combined == ic.offset
    ensures ic.polarity == Inverted ==> a + combined == ic.max + ic.offset
  {
    (if ic.polarity == Inverted then ic.max - combined else combined) + ic.offset
  }

  /** Inverted polarity reverses the direction of the input, normal keeps it. */
  lemma PolarityDirection(ic: ICConfig, c1: real, c2: real)
    ensures ic.polarity == Normal ==> Adjusted(ic, c2) - Adjusted(ic, c1) == c2 - c1
    ensures ic.polarity == Inverted ==> Adjusted(ic, c2) - Adjusted(ic, c1) == c1 - c2
  {
  }

  /** The target of a TTD stage for input delay `combined` (theory delay plus TTD
      calibration, in ps). PS_ONLY zeroes it; HYBRID clamps it into [0, max];
      TTD_ONLY wraps it into one RF period and caps it at max. */
  function TtdTarget(mode: BeamMode, ic: ICConfig, combined: real, periodPs: real): (t: real)
    requires periodPs > 0.0
    ensures mode == PsOnly ==> t == 0.0
    ensures mode == Hybrid ==>
      var a := Adjusted(ic, combined);
      && (0.0 <= a <= ic.max ==> t == a)
      && (a < 0.0 ==> t == 0.0)
      && (a > ic.max ==> t == if ic.max >= 0.0 then ic.max else 0.0)
    ensures mode == TtdOnly ==>
      var w := WrapInto(Adjusted(ic, combined), periodPs);
      && 0.0 <= w < periodPs
      && (w <= ic.max ==> t == w)
      && (w > ic.max ==> t == ic.max)
  {
    if mode == PsOnly then 0.0
    else
      var adjusted := Adjusted(ic, combined);
      if mode == Hybrid then
        var m := if adjusted < ic.max then adjusted else ic.max;
        if 0.0 > m then 0.0 else m
      else
        var t := JsMod(adjusted, periodPs);
        var t' := if t < 0.0 then t + periodPs else t;
        if t' > ic.max then ic.max else t'
  }

  /** The target of a PS stage for theoretical phase `phase` and PS calibration
      `cal` (degrees). TTD_ONLY zeroes it; otherwise the sum is reduced with the
      truncating remainder, passed through polarity and offset, wrapped into
      [0, 360) and capped at max. */
  function PsTarget(mode: BeamMode, ic: ICConfig, phase: real, cal: real): (t: real)
    ensures mode == TtdOnly ==> t == 0.0
    ensures mode != TtdOnly ==>
      var w := WrapInto(Adjusted(ic, JsMod(phase + cal, 360.0)), 360.0);
      && 0.0 <= w < 360.0
      && (w <= ic.max ==> t == w)
      && (w > ic.max ==> t == ic.max)
  {
    if mode == TtdOnly then 0.0
    else
      var combined := JsMod(phase + cal, 360.0);
      var adjusted := Adjusted(ic, combined);
      var t := JsMod(adjusted, 360.0);
      var t' := if t < 0.0 then t + 360.0 else t;
      if t' > ic.max then ic.max else t'
  }

  /** For a stage whose max is not negative, every target lies in [0, max], in every
      mode and for both IC types. */
  lemma TargetWithinRange(mode: BeamMode, ic: ICConfig, combined: real, periodPs: real, phase: real, cal: real)
    requires periodPs > 0.0 && ic.max >= 0.0
    ensures 0.0 <= TtdTarget(mode, ic, combined, periodPs) <= ic.max
    ensures 0.0 <= PsTarget(mode, ic, phase, cal) <= ic.max
  {
  }

  /** A PS target below the cap differs from the adjusted phase by whole turns. */
  lemma PsTargetWholeTurns(mode: BeamMode, ic: ICConfig, phase: real, cal: real)
    requires mode != TtdOnly
    requires PsTarget(mode, ic, phase, cal) < ic.max
    ensures var a := Adjusted(ic, JsMod(phase + cal, 360.0));
      PsTarget(mode, ic, phase, cal) == a - 360.0 * (a / 360.0).Floor as real
  {
    WrapIntoIsFloorMod(Adjusted(ic, JsMod(phase + cal, 360.0)), 360.0);
  }

  /** `Math.round(target / lsb)`. */
  function Code(target: real, lsb: real): int
    requires lsb != 0.0
  {
    JsRound(target / lsb)
  }

  /** The value a code realises: `code * lsb`. */
  function Realised(code: int, lsb: real): real
  {
    code as real * lsb
  }

  lemma ScaleHalfOpen(lo: real, q: real, hi: real, lsb: real)
    requires lsb > 0.0 && lo < q <= hi
    ensures lo * lsb < q * lsb <= hi * lsb
  {
  }

  /** The realised value `code * lsb` is within half a step of the target. */
  lemma CodeError(target: real, lsb: real)
    requires lsb > 0.0
    ensures var actual := Realised(Code(target, lsb), lsb);
      target - lsb / 2.0 < actual <= target + lsb / 2.0
  {
    var q := target / lsb;
    var c := Code(target, lsb);
    assert q * lsb == target;
    ScaleHalfOpen(q - 0.5, c as real, q + 0.5, lsb);
    assert (q - 0.5) * lsb == target - lsb / 2.0;
    assert (q + 0.5) * lsb == target + lsb / 2.0;
  }

  /** The distance between two values. */
  function Distance(a: real, b: real): (d: real)
    ensures d >= 0.0 && (d == a - b || d == b - a)
  {
    if a >= b then a - b else b - a
  }

  /** Codes `apart` steps away realise values `apart` steps away. */
  lemma RealisedApart(c: int, k: int, lsb: real)
    requires lsb > 0.0
    ensures k > c ==> Realised(k, lsb) >= Realised(c, lsb) + lsb
    ensures k < c ==> Realised(k, lsb) <= Realised(c, lsb) - lsb
  {
    var gap := (k - c) as real;
    assert Realised(k, lsb) == Realised(c, lsb) + gap * lsb;
    if k > c {
      assert gap * lsb >= 1.0 * lsb;
    } else if k < c {
      assert (-gap) * lsb >= 1.0 * lsb;
    }
  }

  /** Rounding picks the nearest step: no code realises a value closer to the
      target than `round(target / lsb)` does. */
  lemma CodeNearest(target: real, lsb: real, k: int)
    requires lsb > 0.0
    ensures Distance(Realised(Code(target, lsb), lsb), target) <= Distance(Realised(k, lsb), target)
  {
    CodeError(target, lsb);
    RealisedApart(Code(target, lsb), k, lsb);
  }

  lemma QuotientOrder(a: real, b: real, lsb: real)
    requires lsb > 0.0 && a <= b
    ensures a / lsb <= b / lsb
  {
  }

  /** A target in [0, max] gets a code in [0, round(max / lsb)]. */
  lemma CodeBounds(target: real, max: real, lsb: real)
    requires lsb > 0.0 && 0.0 <= target <= max
    ensures 0 <= Code(target, lsb) <= Code(max, lsb)
  {
    QuotientOrder(0.0, target, lsb);
    QuotientOrder(target, max, lsb);
    JsRoundMonotone(target / lsb, max / lsb);
  }

  /** The four cells of one stage for target `target`: the realised value and the
      error are rounded to three decimals, the code is given in decimal and hex. */
  function Quantise(ic: ICConfig, unit: string, target: real): (o: StageOutput)
    requires ic.lsb != 0.0
    ensures o.name == ic.name && o.unit == unit
  {
    var code := Code(target, ic.lsb);
    var actual := Realised(code, ic.lsb);
    StageOutput(ic.name, unit, ToFixed(actual, 3), code, CodeHex(code), ToFixed(actual - target, 3))
  }

  /** The cells of a quantised stage: the code is `round(target / lsb)`, and the
      actual value and the error are `code * lsb` and its distance to the target,
      at three decimals. */
  lemma QuantiseCells(ic: ICConfig, unit: string, target: real)
    requires ic.lsb != 0.0
    ensures Quantise(ic, unit, target).codeDec == Code(target, ic.lsb)
    ensures Quantise(ic, unit, target).actual == ToFixed(Realised(Code(target, ic.lsb), ic.lsb), 3)
    ensures Quantise(ic, unit, target).error == ToFixed(Realised(Code(target, ic.lsb), ic.lsb) - target, 3)
  {
  }

  /** The `_Code_Dec` cell of a stage with a positive step names the step nearest
      the target. */
  lemma QuantiseNearest(ic: ICConfig, unit: string, target: real, k: int)
    requires ic.lsb > 0.0
    ensures var code := Quantise(ic, unit, target).codeDec;
      Distance(Realised(code, ic.lsb), target) <= Distance(Realised(k, ic.lsb), target)
  {
    QuantiseCells(ic, unit, target);
    CodeNearest(target, ic.lsb, k);
  }

  /** The error cell of a stage with a positive step is within half a step, give or
      take the rounding to three decimals. */
  lemma QuantiseErrorBound(ic: ICConfig, unit: string, target: real)
    requires ic.lsb > 0.0
    ensures -ic.lsb / 2.0 - 0.0005 <= Quantise(ic, unit, target).error <= ic.lsb / 2.0 + 0.0005
  {
    QuantiseCells(ic, unit, target);
    QuantiseError(target, ic.lsb);
  }

  /** The hex cell of a stage whose code is not negative reads back as the code. */
  lemma QuantiseHex(ic: ICConfig, unit: string, target: real)
    requires ic.lsb != 0.0 && Code(target, ic.lsb) >= 0
    ensures HexCell(Quantise(ic, unit, target).codeHex, Code(target, ic.lsb))
  {
    CodeHexRoundTrip(Code(target, ic.lsb));
  }

  /** A `_Code_Hex` cell for a code that is not negative: "0x", then at least two
      upper-case hex digits whose value is the code. */
  predicate HexCell(h: string, code: int)
  {
    |h| >= 4 && h[..2] == "0x" && AllUpperHex(h[2..]) && HexValue(h[2..]) == code
  }

  /** The error cell is within half a step of zero, give or take the rounding to
      three decimals. */
  lemma QuantiseError(target: real, lsb: real)
    requires lsb > 0.0
    ensures -lsb / 2.0 - 0.0005 <= ToFixed(Realised(Code(target, lsb), lsb) - target, 3) <= lsb / 2.0 + 0.0005
  {
    CodeError(target, lsb);
    var x := Realised(Code(target, lsb), lsb) - target;
    assert Pow10(3) == 1000;
    assert x - 0.0005 <= ToFixed(x, 3) <= x + 0.0005;
  }

  /** The stage an IC contributes to a row: a TTD stage works on the delay plus the
      TTD calibration, a PS stage on the phase and the PS calibration. */
  function Stage(ic: ICConfig, mode: BeamMode, delayPs: real, calTtd: real, phaseDeg: real, calPs: real, periodPs: real): (o: StageOutput)
    requires ic.lsb != 0.0 && periodPs > 0.0
    ensures o.name == ic.name
    ensures ic.icType == TTD ==> o.unit == "ps" && o.codeDec == Code(TtdTarget(mode, ic, delayPs + calTtd, periodPs), ic.lsb)
    ensures ic.icType == PS ==> o.unit == "deg" && o.codeDec == Code(PsTarget(mode, ic, phaseDeg, calPs), ic.lsb)
  {
    if ic.icType == TTD then Quantise(ic, "ps", TtdTarget(mode, ic, delayPs + calTtd, periodPs))
    else Quantise(ic, "deg", PsTarget(mode, ic, phaseDeg, calPs))
  }

  /** With lsb > 0 and max >= 0, every stage's code lies in [0, round(max / lsb)]. */
  lemma StageCodeBounds(ic: ICConfig, mode: BeamMode, delayPs: real, calTtd: real, phaseDeg: real, calPs: real, periodPs: real)
    requires ic.lsb > 0.0 && ic.max >= 0.0 && periodPs > 0.0
    ensures 0 <= Stage(ic, mode, delayPs, calTtd, phaseDeg, calPs, periodPs).codeDec <= Code(ic.max, ic.lsb)
  {
    TargetWithinRange(mode, ic, delayPs + calTtd, periodPs, phaseDeg, calPs);
    if ic.icType == TTD {
      CodeBounds(TtdTarget(mode, ic, delayPs + calTtd, periodPs), ic.max, ic.lsb);
    } else {
      CodeBounds(PsTarget(mode, ic, phaseDeg, calPs), ic.max, ic.lsb);
    }
  }

  /** A stage the mode switches off reports code 0, "0x00", actual 0 and error 0. */
  lemma SwitchedOffStage(ic: ICConfig, mode: BeamMode, delayPs: real, calTtd: real, phaseDeg: real, calPs: real, periodPs: real)
    requires ic.lsb != 0.0 && periodPs > 0.0
    requires (ic.icType == TTD && mode == PsOnly) || (ic.icType == PS && mode == TtdOnly)
    ensures var o := Stage(ic, mode, delayPs, calTtd, phaseDeg, calPs, periodPs);
      o.codeDec == 0 && o.codeHex == "0x00" && o.actual == 0.0 && o.error == 0.0
  {
    var t := if ic.icType == TTD then TtdTarget(mode, ic, delayPs + calTtd, periodPs) else PsTarget(mode, ic, phaseDeg, calPs);
    assert t == 0.0;
    assert 0.0 / ic.lsb == 0.0;
    assert Code(t, ic.lsb) == 0;
    assert Realised(0, ic.lsb) == 0.0;
    ToFixedZero(3);
    assert NatToHex(0) == "0";
    assert PadStart("0", 2, '0') == "00";
    assert CodeHex(0) == "0x00";
  }
}
