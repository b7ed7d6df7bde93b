/**
 * The host's interactive control channel. Each line typed on standard input is
 * either a host command `@key [value]`, which changes how frames are processed,
 * or a device command, which is forwarded to the board with a `!` in front and
 * a newline behind. Host commands are applied between frames, in arrival order.
 */
module ControlChannel {
  import opened Wrappers
  import opened Text
  import opened ImageProcessor
  import opened Bytes

  /** Where one input line goes. */
  datatype Routed = Skip | ToHost(key: string, value: string) | ToDevice(line: string)

  /** Routes one line read from standard input (the line as read, newline included). */
  function Classify(raw: string): Routed {
    var line := Strip(StrSpaces, raw);
    if line == [] then Skip
    else if line[0] == '@' then
      var parts := Split(StrSpaces, line[1..]);
      if parts == [] then Skip
      else ToHost(Lower(parts[0]), if |parts| > 1 then parts[1] else "")
    else
      ToDevice((if line[0] == '!' then line else "!" + line) + "\n")
  }

  /**
   * Blank lines and a bare `@` are dropped; a host key is one lower-case word and its
   * value at most one word; a device line starts with `!` and ends with a newline.
   */
  lemma ClassifyShape(raw: string)
    ensures var r := Classify(raw);
      && (r == Skip <==> AllSpace(StrSpaces, raw) || (Strip(StrSpaces, raw) != [] && Strip(StrSpaces, raw)[0] == '@' && AllSpace(StrSpaces, Strip(StrSpaces, raw)[1..])))
      && (r.ToHost? ==>
            r.key != [] && NoSpace(StrSpaces, r.key) && NoSpace(StrSpaces, r.value) && forall i | 0 <= i < |r.key| :: !('A' <= r.key[i] <= 'Z'))
      && (r.ToDevice? ==>
            |r.line| >= 2 && r.line[0] == '!' && r.line[|r.line| - 1] == '\n' && !IsSpace(StrSpaces, r.line[|r.line| - 2]))
  {
    var line := Strip(StrSpaces, raw);
    StripFacts(StrSpaces, raw);
    if line != [] && line[0] == '@' {
      SplitFacts(StrSpaces, line[1..]);
      var parts := Split(StrSpaces, line[1..]);
      if parts != [] {
        LowerFacts(StrSpaces, parts[0]);
      }
    }
  }

  /** A device line carries the typed line unchanged apart from the added `!` and newline. */
  lemma ClassifyDevice(raw: string)
    requires Strip(StrSpaces, raw) != [] && Strip(StrSpaces, raw)[0] != '@'
    ensures var line := Strip(StrSpaces, raw);
      Classify(raw) == ToDevice(if line[0] == '!' then line + "\n" else "!" + line + "\n")
  {
  }

  /** A host line `@Key value ...` yields the lower-cased key and the first value word; the rest is dropped. */
  lemma ClassifyHost(key: string, value: string)
    requires key != [] && NoSpace(StrSpaces, key) && value != [] && NoSpace(StrSpaces, value)
    ensures Classify("@" + key + " " + value) == ToHost(Lower(key), value)
    ensures Classify("@" + key) == ToHost(Lower(key), "")
  {
    var line := "@" + key + " " + value;
    StripUnpadded(StrSpaces, line);
    assert line[1..] == key + (" " + value);
    assert Split(StrSpaces, line[1..]) == [key, value] by {
      SplitWord(StrSpaces, key, " " + value);
      assert (" " + value)[1..] == value;
      SplitToken(StrSpaces, value);
    }
    var short := "@" + key;
    StripUnpadded(StrSpaces, short);
    assert short[1..] == key;
    SplitToken(StrSpaces, key);
  }

  /**
   * The host strips and splits `str`, whose whitespace includes the separators 0x1C..0x1F:
   * `@gamma<US>2` queues gamma with the value 2, where a `bytes` split (the device's) keeps
   * the line one word.
   */
  lemma ClassifySeparator(key: string, value: string, sep: char)
    requires key != [] && NoSpace(StrSpaces, key) && value != [] && NoSpace(StrSpaces, value)
    requires '\U{1C}' <= sep <= '\U{1F}'
    ensures Classify("@" + key + [sep] + value + "\n") == ToHost(Lower(key), value)
    ensures Split(ByteSpaces, key + [sep] + value) == [key + [sep] + value]
  {
    var line := "@" + key + [sep] + value;
    var raw := line + "\n";
    assert Strip(StrSpaces, raw) == line by {
      assert TrimLeft(StrSpaces, raw) == raw;
      assert raw[..|raw| - 1] == line;
      StripUnpadded(StrSpaces, line);
      assert TrimLeft(StrSpaces, line) == line;
    }
    assert line[1..] == key + ([sep] + value);
    assert Split(StrSpaces, line[1..]) == [key, value] by {
      SplitWord(StrSpaces, key, [sep] + value);
      assert ([sep] + value)[1..] == value;
      SplitToken(StrSpaces, value);
    }
    var word := key + [sep] + value;
    assert NoSpace(ByteSpaces, word) by {
      forall i | 0 <= i < |word| ensures !IsSpace(ByteSpaces, word[i]) {
        if i < |key| { assert word[i] == key[i]; }
        else if i > |key| { assert word[i] == value[i - |key| - 1]; }
      }
    }
    SplitToken(ByteSpaces, word);
  }

  // ---------------------------------------------------------------------------
  // The reader: every line up to end of input

  /** The lines before end of input (`readline` returns the empty string only there). */
  function BeforeEof(lines: seq<string>): (r: seq<string>)
    ensures |r| <= |lines| && r == lines[..|r|]
    ensures forall i | 0 <= i < |r| :: r[i] != []
    ensures |r| < |lines| ==> lines[|r|] == []
  {
    if lines == [] || lines[0] == [] then [] else [lines[0]] + BeforeEof(lines[1..])
  }

  /** The host entries queued by a sequence of lines. */
  function HostEntries(lines: seq<string>): seq<(string, string)> {
    if lines == [] then []
    else
      var rest := HostEntries(lines[..|lines| - 1]);
      match Classify(lines[|lines| - 1])
      case ToHost(k, v) => rest + [(k, v)]
      case _ => rest
  }

  /** The device lines queued by a sequence of lines. */
  function DeviceLines(lines: seq<string>): seq<string> {
    if lines == [] then []
    else
      var rest := DeviceLines(lines[..|lines| - 1]);
      match Classify(lines[|lines| - 1])
      case ToDevice(l) => rest + [l]
      case _ => rest
  }

  /** Every forwarded device line starts with `!` and ends with a newline; no line yields two entries. */
  lemma {:induction false} DeviceLinesWellFormed(lines: seq<string>)
    ensures |HostEntries(lines)| + |DeviceLines(lines)| <= |lines|
    ensures forall k | 0 <= k < |DeviceLines(lines)| ::
      var l := DeviceLines(lines)[k]; |l| >= 2 && l[0] == '!' && l[|l| - 1] == '\n'
  {
    if lines != [] {
      var n := |lines| - 1;
      var init := lines[..n];
      DeviceLinesWellFormed(init);
      DeviceShape(lines[n]);
      var before := DeviceLines(init);
      var after := DeviceLines(lines);
      forall k | 0 <= k < |after|
        ensures var l := after[k]; |l| >= 2 && l[0] == '!' && l[|l| - 1] == '\n'
      {
        if k < |before| {
          assert after[k] == before[k];
        }
      }
    }
  }

  lemma DeviceShape(raw: string)
    ensures var r := Classify(raw);
      r.ToDevice? ==> |r.line| >= 2 && r.line[0] == '!' && r.line[|r.line| - 1] == '\n'
  {
    ClassifyShape(raw);
  }

  /** Extending the lines by one extends the queues by what that line routes to. */
  lemma ClassifiedStep(lines: seq<string>, n: nat)
    requires n < |lines|
    ensures var c := Classify(lines[n]);
      && HostEntries(lines[..n + 1]) == (if c.ToHost? then HostEntries(lines[..n]) + [(c.key, c.value)] else HostEntries(lines[..n]))
      && DeviceLines(lines[..n + 1]) == (if c.ToDevice? then DeviceLines(lines[..n]) + [c.line] else DeviceLines(lines[..n]))
  {
    var p := lines[..n + 1];
    assert p[..|p| - 1] == lines[..n];
    assert p[|p| - 1] == lines[n];
  }

  /**
   * `stdin_worker`: reads lines until end of input, dropping blank lines and bare `@`,
   * and appends to the host queue and the device queue in reading order.
   */
  method ReadCommands(lines: seq<string>) returns (hostQueue: seq<(string, string)>, deviceQueue: seq<string>)
    ensures hostQueue == HostEntries(BeforeEof(lines))
    ensures deviceQueue == DeviceLines(BeforeEof(lines))
  {
    hostQueue, deviceQueue := [], [];
    var n := 0;
    while n < |lines| && lines[n] != []
      invariant n <= |lines|
      invariant forall i | 0 <= i < n :: lines[i] != []
      invariant hostQueue == HostEntries(lines[..n])
      invariant deviceQueue == DeviceLines(lines[..n])
    {
      match Classify(lines[n]) {
        case Skip =>
        case ToHost(k, v) =>
          hostQueue := hostQueue + [(k, v)];
        case ToDevice(l) =>
          deviceQueue := deviceQueue + [l];
      }
      ClassifiedStep(lines, n);
      n := n + 1;
    }
    BeforeEofAt(lines, n);
  }

  /** The lines before end of input are the prefix up to the first empty line. */
  lemma BeforeEofAt(lines: seq<string>, n: nat)
    requires n <= |lines| && (n == |lines| || lines[n] == [])
    requires forall i | 0 <= i < n :: lines[i] != []
    ensures BeforeEof(lines) == lines[..n]
  {
  }

  // ---------------------------------------------------------------------------
  // Applying host entries to the processing settings

  /** Applying an entry either gives the new settings or stops the host (a `float()` that raised). */
  datatype HostOutcome = Applied(cfg: Config) | Crashed

  /** The words that switch `invert` and `rotate180` off; every other value switches them on. */
  predicate Falsy(v: string) {
    v == "0" || v == "false" || v == "off" || v == ""
  }

  /** What a host key asks for, aliases folded together. */
  datatype HostCommand = Help | Reset | SetGamma | SetContrast | SetBrightness | SetDither | SetInvert | SetRotate | UnknownKey

  /** The keys the host acts on. */
  predicate KnownKey(k: string) {
    k in {"help", "?", "reset", "gamma", "g", "contrast", "c", "brightness", "b",
          "dither", "d", "invert", "inv", "rotate180", "rot", "rotate"}
  }

  /** The command a lower-cased key names. */
  function CommandOf(k: string): HostCommand {
    if k == "help" || k == "?" then Help
    else if k == "reset" then Reset
    else if k == "gamma" || k == "g" then SetGamma
    else if k == "contrast" || k == "c" then SetContrast
    else if k == "brightness" || k == "b" then SetBrightness
    else if k == "dither" || k == "d" then SetDither
    else if k == "invert" || k == "inv" then SetInvert
    else if k == "rotate180" || k == "rot" || k == "rotate" then SetRotate
    else UnknownKey
  }

  /**
   * Python's `float()` on a value: a finite number, an infinity of either sign or NaN (`"inf"`,
   * `"-Infinity"`, `"nan"` are accepted), or `Invalid` where it raises `ValueError`.
   */
  datatype FloatValue = Finite(x: real) | Infinite(negative: bool) | NaN | Invalid

  /**
   * The gamma stored for `-inf`. The host only ever compares gamma with 1.0 and with 0, and
   * every negative value compares as `-inf` does, so any negative stand-in behaves alike.
   */
  const NegativeInfinityGamma: real := -1.0

  /**
   * One command with its raw value; `parseFloat` is `float()`. A `ValueError` is caught by
   * nothing and stops the host, and so does `int()` of an infinity or NaN for brightness.
   * Gamma and contrast are exact reals here: `-inf` gamma is stored as a negative stand-in,
   * which the pipeline refuses just as it refuses `-inf`; the other non-finite values leave
   * them as they were.
   */
  function ApplyCommand(cfg: Config, defaults: Config, c: HostCommand, value: string,
                        parseFloat: string -> FloatValue): HostOutcome
  {
    var v := Lower(Strip(StrSpaces, value));
    match c
    case Help => Applied(cfg)
    case Reset => Applied(defaults)
    case SetGamma =>
      (match parseFloat(value)
       case Invalid => Crashed
       case Infinite(negative) => if negative then Applied(cfg.(gamma := NegativeInfinityGamma)) else Applied(cfg)
       case NaN => Applied(cfg)
       case Finite(x) => Applied(cfg.(gamma := x)))
    case SetContrast =>
      (match parseFloat(value)
       case Invalid => Crashed
       case Finite(x) => Applied(cfg.(contrast := x))
       case _ => Applied(cfg))
    case SetBrightness =>
      (match parseFloat(value)
       case Finite(x) => Applied(cfg.(brightness := Trunc(x)))
       case _ => Crashed)
    case SetDither => if KnownDither(v) then Applied(cfg.(dither := v)) else Applied(cfg)
    case SetInvert => Applied(cfg.(invert := !Falsy(v)))
    case SetRotate => Applied(cfg.(rotate180 := !Falsy(v)))
    case UnknownKey => Applied(cfg)
  }

  /** One entry of the host queue: the key is lower-cased again before dispatch. */
  function ApplyEntry(cfg: Config, defaults: Config, key: string, value: string,
                      parseFloat: string -> FloatValue): HostOutcome
  {
    ApplyCommand(cfg, defaults, CommandOf(Lower(key)), value, parseFloat)
  }

  /** Every queued entry in order; the first crash ends the host. */
  function ApplyEntries(cfg: Config, defaults: Config, entries: seq<(string, string)>,
                        parseFloat: string -> FloatValue): HostOutcome
    decreases |entries|
  {
    if entries == [] then Applied(cfg)
    else
      match ApplyEntry(cfg, defaults, entries[0].0, entries[0].1, parseFloat)
      case Crashed => Crashed
      case Applied(next) => ApplyEntries(next, defaults, entries[1..], parseFloat)
  }

  /** Keys are matched without regard to case: `@RESET`, `@Rot` and `@G` name the same commands as their lower-case forms. */
  lemma KeyAliases()
    ensures CommandOf(Lower("RESET")) == Reset && CommandOf(Lower("Rot")) == SetRotate && CommandOf(Lower("G")) == SetGamma
    ensures CommandOf("?") == Help && CommandOf("rotate") == SetRotate && CommandOf("b") == SetBrightness
  {
    assert Lower("RESET") == "reset";
    assert Lower("Rot") == "rot";
    assert Lower("G") == "g";
  }

  /** `reset` restores every setting to its start-up value. */
  lemma ResetRestores(cfg: Config, defaults: Config, value: string, parseFloat: string -> FloatValue)
    ensures ApplyEntry(cfg, defaults, "reset", value, parseFloat) == Applied(defaults)
  {
    assert Lower("reset") == "reset";
  }

  /** Exactly the sixteen keys above name a command. */
  lemma CommandOfKnown(k: string)
    ensures CommandOf(k) == UnknownKey <==> !KnownKey(k)
  {
  }

  /** An unknown key changes nothing and never stops the host. */
  lemma UnknownKeyKeeps(cfg: Config, defaults: Config, key: string, value: string, parseFloat: string -> FloatValue)
    requires !KnownKey(Lower(key))
    ensures ApplyEntry(cfg, defaults, key, value, parseFloat) == Applied(cfg)
  {
    CommandOfKnown(Lower(key));
  }

  /**
   * A dither name other than bayer, fs or atkinson (after strip and lower-casing) leaves
   * the settings as they were; a good one replaces the dither and nothing else.
   */
  lemma DitherValidated(cfg: Config, defaults: Config, value: string, parseFloat: string -> FloatValue)
    ensures !KnownDither(Lower(Strip(StrSpaces, value))) ==> ApplyCommand(cfg, defaults, SetDither, value, parseFloat) == Applied(cfg)
    ensures KnownDither(Lower(Strip(StrSpaces, value))) ==>
      ApplyCommand(cfg, defaults, SetDither, value, parseFloat) == Applied(cfg.(dither := Lower(Strip(StrSpaces, value))))
  {
  }

  /**
   * `invert` and `rotate180` are switched off exactly by 0, false, off (any case, any
   * surrounding space) or an empty value, and nothing else changes.
   */
  lemma FlagValues(cfg: Config, defaults: Config, value: string, parseFloat: string -> FloatValue)
    ensures var r := ApplyCommand(cfg, defaults, SetInvert, value, parseFloat);
      r.Applied? && r.cfg == cfg.(invert := r.cfg.invert)
      && (!r.cfg.invert <==> Lower(Strip(StrSpaces, value)) in {"0", "false", "off", ""})
    ensures var r := ApplyCommand(cfg, defaults, SetRotate, value, parseFloat);
      r.Applied? && r.cfg == cfg.(rotate180 := r.cfg.rotate180)
      && (!r.cfg.rotate180 <==> Lower(Strip(StrSpaces, value)) in {"0", "false", "off", ""})
  {
  }

  /** Concrete flag values: upper case and padding do not matter, and any other word switches on. */
  lemma FlagExamples(cfg: Config, defaults: Config, parseFloat: string -> FloatValue)
    ensures ApplyCommand(cfg, defaults, SetInvert, " OFF ", parseFloat) == Applied(cfg.(invert := false))
    ensures ApplyCommand(cfg, defaults, SetInvert, "False", parseFloat) == Applied(cfg.(invert := false))
    ensures ApplyCommand(cfg, defaults, SetRotate, "yes", parseFloat) == Applied(cfg.(rotate180 := true))
    ensures ApplyCommand(cfg, defaults, SetRotate, "", parseFloat) == Applied(cfg.(rotate180 := false))
  {
    StripUnpadded(StrSpaces, "OFF");
    assert Strip(StrSpaces, " OFF ") == "OFF" by {
      assert TrimLeft(StrSpaces, " OFF ") == "OFF ";
      assert TrimRight(StrSpaces, "OFF ") == "OFF";
    }
    assert Lower("OFF") == "off";
    StripUnpadded(StrSpaces, "False");
    assert Lower("False") == "false";
    StripUnpadded(StrSpaces, "yes");
    assert Lower("yes") == "yes";
  }

  /**
   * A numeric key whose value `float()` rejects stops the host; a finite value changes only
   * that setting; brightness, which goes through `int()`, also stops the host on an infinity or NaN;
   * `-inf` gamma leaves a gamma that refuses every frame.
   */
  lemma NumericKeys(cfg: Config, defaults: Config, value: string, parseFloat: string -> FloatValue,
                    gammaCurve: real -> Curve)
    ensures parseFloat(value).Invalid? ==>
      ApplyCommand(cfg, defaults, SetGamma, value, parseFloat) == Crashed
      && ApplyCommand(cfg, defaults, SetContrast, value, parseFloat) == Crashed
      && ApplyCommand(cfg, defaults, SetBrightness, value, parseFloat) == Crashed
    ensures parseFloat(value).Finite? ==>
      var x := parseFloat(value).x;
      ApplyCommand(cfg, defaults, SetGamma, value, parseFloat) == Applied(cfg.(gamma := x))
      && ApplyCommand(cfg, defaults, SetContrast, value, parseFloat) == Applied(cfg.(contrast := x))
      && ApplyCommand(cfg, defaults, SetBrightness, value, parseFloat) == Applied(cfg.(brightness := Trunc(x)))
    ensures parseFloat(value).Infinite? || parseFloat(value).NaN? ==>
      ApplyCommand(cfg, defaults, SetBrightness, value, parseFloat) == Crashed
      && ApplyCommand(cfg, defaults, SetContrast, value, parseFloat) == Applied(cfg)
    ensures parseFloat(value) == Infinite(true) ==>
      var r := ApplyCommand(cfg, defaults, SetGamma, value, parseFloat);
      r == Applied(cfg.(gamma := r.cfg.gamma))
      && forall raw: seq<Byte> :: Process(raw, r.cfg, gammaCurve).Failure?
    ensures parseFloat(value) == Infinite(false) || parseFloat(value).NaN? ==>
      ApplyCommand(cfg, defaults, SetGamma, value, parseFloat) == Applied(cfg)
  {
  }

  /** Entries apply one after the other: a queue split in two applies as the two halves in turn. */
  lemma {:induction false} ApplyEntriesAppend(cfg: Config, defaults: Config, a: seq<(string, string)>,
                                               b: seq<(string, string)>, parseFloat: string -> FloatValue)
    ensures ApplyEntries(cfg, defaults, a + b, parseFloat) ==
      match ApplyEntries(cfg, defaults, a, parseFloat)
      case Crashed => Crashed
      case Applied(mid) => ApplyEntries(mid, defaults, b, parseFloat)
    decreases |a|
  {
    if a != [] {
      assert (a + b)[0] == a[0] && (a + b)[1..] == a[1..] + b;
      match ApplyEntry(cfg, defaults, a[0].0, a[0].1, parseFloat)
      case Crashed =>
      case Applied(next) =>
        ApplyEntriesAppend(next, defaults, a[1..], b, parseFloat);
    } else {
      assert a + b == b;
    }
  }

  /** Whatever came before, a queue that ends in `reset` leaves the defaults, unless an earlier entry stopped the host. */
  lemma ResetLast(cfg: Config, defaults: Config, entries: seq<(string, string)>, value: string,
                  parseFloat: string -> FloatValue)
    ensures var r := ApplyEntries(cfg, defaults, entries + [("reset", value)], parseFloat);
      r == Crashed || r == Applied(defaults)
  {
    ApplyEntriesAppend(cfg, defaults, entries, [("reset", value)], parseFloat);
    match ApplyEntries(cfg, defaults, entries, parseFloat)
    case Crashed =>
    case Applied(mid) =>
      ResetRestores(mid, defaults, value, parseFloat);
      assert [("reset", value)][1..] == [];
  }

  /** Only a gamma, contrast or brightness entry can stop the host. */
  lemma {:induction false} NoCrashWithoutNumbers(cfg: Config, defaults: Config, entries: seq<(string, string)>,
                                                 parseFloat: string -> FloatValue)
    requires forall i | 0 <= i < |entries| ::
      CommandOf(Lower(entries[i].0)) !in {SetGamma, SetContrast, SetBrightness}
    ensures ApplyEntries(cfg, defaults, entries, parseFloat).Applied?
    decreases |entries|
  {
    if entries != [] {
      var r := ApplyEntry(cfg, defaults, entries[0].0, entries[0].1, parseFloat);
      assert r.Applied?;
      NoCrashWithoutNumbers(r.cfg, defaults, entries[1..], parseFloat);
    }
  }
}
