/**
 * The host's frame pipeline: one 128x64 8-bit grayscale frame becomes one
 * 1024-byte packed frame for the display. The stages run in a fixed order:
 * size check, optional 180-degree rotation, optional brightness/contrast,
 * optional gamma, dithering to a 1-bit mask, optional inversion, packing.
 */
module ImageProcessor {
  import opened Wrappers
  import opened Bytes
  import opened Packing
  import opened Dithering

  /** The processing settings the host can change at run time. */
  datatype Config = Config(
    invert: bool,
    rotate180: bool,
    gamma: real,
    brightness: int,
    contrast: real,
    dither: string)

  /** Why a frame was refused. */
  datatype ProcessError = BadFrameSize | BadGamma | BadDither

  /** A per-level lookup table: what the gamma stage makes of each gray level 0..255. */
  type Curve = t: seq<Byte> | |t| == 256 witness seq(256, _ => 0)

  /** The dither names the pipeline accepts. */
  predicate KnownDither(d: string) {
    d == "bayer" || d == "fs" || d == "atkinson"
  }

  // ---------------------------------------------------------------------------
  // Stages

  /** Reversing both axes of a row-major frame reverses the flat sequence. */
  function Rotate180(frame: seq<Byte>): (r: seq<Byte>)
    requires |frame| == RawFrameBytes
    ensures |r| == RawFrameBytes
  {
    seq(RawFrameBytes, n requires 0 <= n < RawFrameBytes => frame[RawFrameBytes - 1 - n])
  }

  /** A clipped value cast back to a byte: below 0 gives 0, above 255 gives 255, otherwise the integer part. */
  function ClipToByte(t: real): (r: Byte)
    ensures t <= 0.0 ==> r == 0
    ensures t >= 255.0 ==> r == 255
    ensures 0.0 <= t <= 255.0 ==> r as real <= t < r as real + 1.0
  {
    if t < 0.0 then 0 else if t > 255.0 then 255 else t.Floor
  }

  /** Contrast scales a level around 128 (skipped at exactly 1.0). */
  function Scaled(v: Byte, contrast: real): real {
    if contrast != 1.0 then (v as real - 128.0) * contrast + 128.0 else v as real
  }

  /** Brightness shifts a level (skipped at 0). */
  function Shifted(t: real, brightness: int): real {
    if brightness != 0 then t + brightness as real else t
  }

  /** Brightness/contrast for one level: contrast scales around 128, brightness shifts, then clip. */
  function ToneLevel(v: Byte, brightness: int, contrast: real): Byte {
    ClipToByte(Shifted(Scaled(v, contrast), brightness))
  }

  /** The brightness/contrast stage, run only when it would change something. */
  function Tone(frame: seq<Byte>, brightness: int, contrast: real): (r: seq<Byte>)
    ensures |r| == |frame|
  {
    if brightness != 0 || contrast != 1.0 then
      seq(|frame|, n requires 0 <= n < |frame| => ToneLevel(frame[n], brightness, contrast))
    else
      frame
  }

  /** Looks every pixel up in the curve. */
  function ApplyCurve(frame: seq<Byte>, curve: Curve): (r: seq<Byte>)
    ensures |r| == |frame|
  {
    seq(|frame|, n requires 0 <= n < |frame| => curve[frame[n]])
  }

  /**
   * The gamma stage: skipped at exactly 1.0, refused at or below 0, otherwise the
   * curve that `gammaCurve` gives for this exponent.
   */
  function Gamma(frame: seq<Byte>, gamma: real, gammaCurve: real -> Curve): (r: Result<seq<Byte>, ProcessError>)
    ensures r.Success? ==> |r.value| == |frame|
    ensures r.Failure? <==> gamma != 1.0 && gamma <= 0.0
  {
    if gamma != 1.0 then
      if gamma <= 0.0 then Failure(BadGamma)
      else Success(ApplyCurve(frame, gammaCurve(gamma)))
    else
      Success(frame)
  }

  /** The 1-bit mask the named dither makes of a frame, or nothing for an unknown name. */
  function DitherMask(frame: seq<Byte>, dither: string): (r: Option<Mask>)
    requires |frame| == RawFrameBytes
    ensures r.Some? <==> KnownDither(dither)
  {
    if dither == "bayer" then Some(BayerMask(frame))
    else if dither == "fs" then Some(DiffusionMask(FloydSteinberg, frame))
    else if dither == "atkinson" then Some(DiffusionMask(Atkinson, frame))
    else None
  }

  /** The frame as it reaches the dither stage. */
  function Prepare(grayFrame: seq<Byte>, cfg: Config, gammaCurve: real -> Curve): (r: Result<seq<Byte>, ProcessError>)
    requires |grayFrame| == RawFrameBytes
    ensures r.Success? ==> |r.value| == RawFrameBytes
  {
    var rotated := if cfg.rotate180 then Rotate180(grayFrame) else grayFrame;
    Gamma(Tone(rotated, cfg.brightness, cfg.contrast), cfg.gamma, gammaCurve)
  }

  /** The whole pipeline as a function of the raw frame and the settings. */
  function Process(grayFrame: seq<Byte>, cfg: Config, gammaCurve: real -> Curve): (r: Result<seq<Byte>, ProcessError>)
    ensures r.Success? ==> |r.value| == PackedFrameBytes
    ensures r.Success? <==> |grayFrame| == RawFrameBytes && !(cfg.gamma != 1.0 && cfg.gamma <= 0.0) && KnownDither(cfg.dither)
    ensures r == Failure(BadFrameSize) <==> |grayFrame| != RawFrameBytes
  {
    if |grayFrame| != RawFrameBytes then Failure(BadFrameSize)
    else
      match Prepare(grayFrame, cfg, gammaCurve)
      case Failure(e) => Failure(e)
      case Success(frame) =>
        match DitherMask(frame, cfg.dither)
        case None => Failure(BadDither)
        case Some(on) => Success(Pack(if cfg.invert then Invert(on) else on))
  }

  // ---------------------------------------------------------------------------
  // Properties

  /** Rotation sends pixel (y, x) to (63 - y, 127 - x), and rotating twice restores the frame. */
  lemma Rotate180Pixel(frame: seq<Byte>, y: nat, x: nat)
    requires |frame| == RawFrameBytes && y < Height && x < Width
    ensures Rotate180(frame)[y * Width + x] == frame[(Height - 1 - y) * Width + (Width - 1 - x)]
  {
  }

  lemma Rotate180Twice(frame: seq<Byte>)
    requires |frame| == RawFrameBytes
    ensures Rotate180(Rotate180(frame)) == frame
  {
  }

  /** With brightness 0 and contrast 1 the tone stage is the identity on every level. */
  lemma ToneNeutral(v: Byte)
    ensures ToneLevel(v, 0, 1.0) == v
  {
  }

  /** With contrast 1 the tone stage is a shift by `brightness`, clamped to 0..255. */
  lemma ToneShift(v: Byte, brightness: int)
    ensures ToneLevel(v, brightness, 1.0) == if v + brightness < 0 then 0 else if v + brightness > 255 then 255 else v + brightness
  {
  }

  /** Clipping keeps order. */
  lemma ClipMonotone(s: real, t: real)
    requires s <= t
    ensures ClipToByte(s) <= ClipToByte(t)
  {
  }

  lemma ScaleMonotone(a: real, b: real, c: real)
    requires a <= b && c >= 0.0
    ensures a * c <= b * c
  {
    var d := b - a;
    assert b * c == a * c + d * c;
    assert d * c >= 0.0;
  }

  /** A non-negative contrast never swaps two levels. */
  lemma ToneMonotone(v: Byte, w: Byte, brightness: int, contrast: real)
    requires v <= w && contrast >= 0.0
    ensures ToneLevel(v, brightness, contrast) <= ToneLevel(w, brightness, contrast)
  {
    if contrast != 1.0 {
      ScaleMonotone(v as real - 128.0, w as real - 128.0, contrast);
    }
    assert Scaled(v, contrast) <= Scaled(w, contrast);
    ClipMonotone(Shifted(Scaled(v, contrast), brightness), Shifted(Scaled(w, contrast), brightness));
  }

  /** Flipping `invert` complements every packed byte. */
  lemma ProcessInvert(grayFrame: seq<Byte>, cfg: Config, gammaCurve: real -> Curve)
    requires Process(grayFrame, cfg, gammaCurve).Success?
    ensures var a := Process(grayFrame, cfg, gammaCurve).value;
      var b := Process(grayFrame, cfg.(invert := !cfg.invert), gammaCurve).value;
      forall k | 0 <= k < PackedFrameBytes :: b[k] == 255 - a[k]
  {
    var frame := Prepare(grayFrame, cfg, gammaCurve).value;
    var on := DitherMask(frame, cfg.dither).value;
    PackInvert(on);
    assert Invert(Invert(on)) == on;
    PackInvert(Invert(on));
  }

  lemma RotateUniform(value: Byte)
    ensures Rotate180(seq(RawFrameBytes, _ => value)) == seq(RawFrameBytes, _ => value)
  {
  }

  /** Neutral tone and gamma leave a uniform frame as it is, rotated or not. */
  lemma PrepareUniform(value: Byte, cfg: Config, gammaCurve: real -> Curve)
    requires cfg.brightness == 0 && cfg.contrast == 1.0 && cfg.gamma == 1.0
    ensures Prepare(seq(RawFrameBytes, _ => value), cfg, gammaCurve) == Success(seq(RawFrameBytes, _ => value))
  {
    RotateUniform(value);
  }

  /** Every dither makes the uniform mask of a white or black frame. */
  lemma DitherUniform(value: Byte, dither: string)
    requires value == 0 || value == 255
    requires KnownDither(dither)
    ensures DitherMask(seq(RawFrameBytes, _ => value), dither) == Some(seq(RawFrameBytes, _ => value == 0))
  {
    if dither == "bayer" {
      BayerUniform(value);
    } else if dither == "fs" {
      DiffusionMaskUniform(FloydSteinberg, value);
    } else {
      DiffusionMaskUniform(Atkinson, value);
    }
  }

  /**
   * With neutral tone and gamma, an all-white frame packs to all 0x00 and an
   * all-black frame to all 0xFF, whatever the dither and rotation; inverted, the other way round.
   */
  lemma ProcessUniform(value: Byte, cfg: Config, gammaCurve: real -> Curve)
    requires value == 0 || value == 255
    requires cfg.brightness == 0 && cfg.contrast == 1.0 && cfg.gamma == 1.0 && KnownDither(cfg.dither)
    ensures Process(seq(RawFrameBytes, _ => value), cfg, gammaCurve)
      == Success(seq(PackedFrameBytes, _ => if (value == 0) != cfg.invert then 255 else 0))
  {
    PrepareUniform(value, cfg, gammaCurve);
    var on: Mask := seq(RawFrameBytes, _ => value == 0);
    DitherUniform(value, cfg.dither);
    var final: Mask := seq(RawFrameBytes, _ => (value == 0) != cfg.invert);
    assert (if cfg.invert then Invert(on) else on) == final;
    PackUniform((value == 0) != cfg.invert);
  }

  // ---------------------------------------------------------------------------
  // The pipeline as the host runs it

  /** `dither_and_pack`: the error-diffusion dithers rewrite a working array in place. */
  method DitherAndPack(grayFrame: seq<Byte>, cfg: Config, gammaCurve: real -> Curve)
    returns (r: Result<seq<Byte>, ProcessError>)
    ensures r == Process(grayFrame, cfg, gammaCurve)
  {
    if |grayFrame| != RawFrameBytes {
      return Failure(BadFrameSize);
    }
    var prepared := PrepareFrame(grayFrame, cfg, gammaCurve);
    if prepared.Failure? {
      return Failure(prepared.error);
    }
    var frame := prepared.value;
    var on: Mask;
    if cfg.dither == "bayer" {
      on := BayerMask(frame);
    } else if cfg.dither == "fs" {
      on := DiffuseFrame(frame, FloydSteinberg);
    } else if cfg.dither == "atkinson" {
      on := DiffuseFrame(frame, Atkinson);
    } else {
      return Failure(BadDither);
    }
    assert DitherMask(frame, cfg.dither) == Some(on);
    if cfg.invert {
      on := Invert(on);
    }
    r := Success(Pack(on));
  }

  /** Rotation, tone and gamma, each only when the settings ask for it. */
  method PrepareFrame(grayFrame: seq<Byte>, cfg: Config, gammaCurve: real -> Curve)
    returns (r: Result<seq<Byte>, ProcessError>)
    requires |grayFrame| == RawFrameBytes
    ensures r == Prepare(grayFrame, cfg, gammaCurve)
  {
    var frame := if cfg.rotate180 then Rotate180(grayFrame) else grayFrame;
    frame := Tone(frame, cfg.brightness, cfg.contrast);
    if cfg.gamma != 1.0 {
      if cfg.gamma <= 0.0 {
        return Failure(BadGamma);
      }
      frame := ApplyCurve(frame, gammaCurve(cfg.gamma));
    }
    r := Success(frame);
  }

  /** Error diffusion on a working copy of the frame, then the threshold at 128. */
  method DiffuseFrame(frame: seq<Byte>, m: Diffusion) returns (on: Mask)
    requires |frame| == RawFrameBytes
    ensures on == DiffusionMask(m, frame)
  {
    var arr := new int[RawFrameBytes](n requires 0 <= n < RawFrameBytes => frame[n]);
    assert arr[..] == frame;
    if m == FloydSteinberg {
      FloydSteinbergInPlace(arr);
    } else {
      AtkinsonInPlace(arr);
    }
    on := seq(RawFrameBytes, n requires 0 <= n < RawFrameBytes reads arr => arr[n] < 128);
  }
}
