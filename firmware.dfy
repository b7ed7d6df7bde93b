/**
 * The board firmware: the line protocol it reads from USB serial (frames as
 * base64 text, `!` commands that tune the panel, backlight and LEDs), the five
 * buttons it polls, and the once-a-second frame-rate health LEDs.
 *
 * The firmware's reaction to one input is a pure function returning the new
 * device settings and the list of hardware actions, in the order the firmware
 * performs them; the `Firmware` class holds the settings and carries those
 * actions out on the display driver.
 */
module DeviceFirmware {
  import opened Wrappers
  import opened Text
  import opened Bytes
  import opened ST7567Driver

  /** 128 columns by 64 / 8 pages. */
  const FrameBytes: nat := 1024

  const DefaultContrast: int := 0x2A
  const DefaultRegRatio: int := 3
  const DefaultBacklight: int := 25000
  const DefaultTargetFps: int := 60
  const PinBacklight: int := 6
  const PinLedD2: int := 2
  const PinLedD3: int := 3
  const BacklightStep: int := 4000
  const MaxDuty: int := 65535

  /** The `state` dictionary. */
  datatype DeviceState = DeviceState(contrast: int, backlight: int, invert: bool,
                                     targetFps: int, regRatio: int, bias17: bool)

  /** The `leds` dictionary: the two indicator pins (none when disabled) and their polarity. */
  datatype Leds = Leds(d2: Option<int>, d3: Option<int>, activeLow: bool)

  datatype Device = Device(state: DeviceState, leds: Leds)

  /** How the backlight is driven: a PWM duty cycle, or a plain on/off pin when PWM is unavailable. */
  datatype BacklightKind = Pwm | OnOffPin

  /**
   * What the firmware cannot decide by itself: which backlight driver it got, which
   * pin numbers the MCU accepts, `float()` and `a2b_base64` (each `None` where the
   * call raises; `float()` also `None` for infinities and NaN, where the following
   * `int()` raises).
   */
  datatype Board = Board(backlight: BacklightKind, pinExists: int -> bool,
                         parseFloat: string -> Option<real>, decodeBase64: string -> Option<seq<Byte>>)

  /** One hardware action. */
  datatype Effect =
    | LcdContrast(level: int)
    | LcdRatio(ratio: int)
    | LcdBias(bias17: bool)
    | LcdInvert(invert: bool)
    | BacklightDuty(duty: int)
    | PinOut(pin: int, level: int)
    | PinIn(pin: int)
    | Sleep(ms: int)

  /** What `handle_line` returns: nothing, a frame to show, or the `SystemExit` it raises. */
  datatype Reply = NoFrame | Frame(bytes: seq<Byte>) | Exit

  datatype Handled = Handled(reply: Reply, device: Device, effects: seq<Effect>)

  /** The ranges the firmware keeps its settings in. */
  predicate InRange(st: DeviceState) {
    0 <= st.contrast <= 0x3F && 0 <= st.backlight <= MaxDuty && 0 <= st.regRatio <= 7
  }

  // ---------------------------------------------------------------------------
  // Backlight and LEDs

  /** `set_backlight`: the duty clamped to 16 bits, or the pin on exactly for a positive value. */
  function SetBacklight(kind: BacklightKind, value: int): (es: seq<Effect>)
    ensures |es| == 1
    ensures kind == Pwm ==>
      es[0].BacklightDuty? && 0 <= es[0].duty <= MaxDuty && (0 <= value <= MaxDuty ==> es[0].duty == value)
    ensures kind == OnOffPin ==> es[0] == PinOut(PinBacklight, if value > 0 then 1 else 0)
  {
    match kind
    case Pwm => [BacklightDuty(Clamp(value, 0, MaxDuty))]
    case OnOffPin => [PinOut(PinBacklight, if value > 0 then 1 else 0)]
  }

  /** The pin level `_led_set` writes. */
  function LedLevel(on: bool, activeLow: bool): (level: int)
    ensures level == 0 || level == 1
    ensures level == 1 <==> on != activeLow
  {
    if on && activeLow then 0 else if on && !activeLow then 1 else if activeLow then 1 else 0
  }

  /** `_led_set`: nothing for a disabled LED. */
  function LedSet(led: Option<int>, on: bool, activeLow: bool): (es: seq<Effect>)
    ensures led.None? ==> es == []
    ensures led.Some? ==> es == [PinOut(led.value, LedLevel(on, activeLow))]
  {
    match led
    case None => []
    case Some(p) => [PinOut(p, LedLevel(on, activeLow))]
  }

  /**
   * `_mk_led`: no LED for a negative pin number, otherwise the output pin; `None`
   * when constructing the pin raises.
   */
  function MkLed(p: int, pinExists: int -> bool): (r: Option<Option<int>>)
    ensures p < 0 ==> r == Some(None)
    ensures p >= 0 ==> (r.Some? <==> pinExists(p)) && (r.Some? ==> r.value == Some(p))
  {
    if p < 0 then Some(None)
    else if pinExists(p) then Some(Some(p))
    else None
  }

  /** The 80 ms test blink after an LED is (re)assigned. */
  function Blink(led: Option<int>, activeLow: bool): seq<Effect> {
    LedSet(led, true, activeLow) + [Sleep(80)] + LedSet(led, false, activeLow)
  }

  /** A blink lights the LED and then leaves it dark, whatever its polarity. */
  lemma BlinkLevels(p: int, activeLow: bool)
    ensures var es := Blink(Some(p), activeLow);
      && |es| == 3
      && es[0] == PinOut(p, if activeLow then 0 else 1)
      && es[2] == PinOut(p, if activeLow then 1 else 0)
  {
  }

  // ---------------------------------------------------------------------------
  // Commands

  /**
   * The backlight argument: with a `.`, a fraction of full scale (`int(float(s) * 65535)`);
   * otherwise an integer, read as a percentage when it is 0..100 and as a raw duty
   * when not. The result is clamped to 0..65535; `None` when the parse raises.
   */
  function BacklightValue(s: string, parseFloat: string -> Option<real>): (r: Option<int>)
    ensures r.Some? ==> 0 <= r.value <= MaxDuty
  {
    if '.' in s then
      match parseFloat(s)
      case None => None
      case Some(f) => Some(Clamp(Trunc(f * 65535.0), 0, MaxDuty))
    else
      match ParseInt(s)
      case None => None
      case Some(v) =>
        var w := if 0 <= v <= 100 then v * MaxDuty / 100 else v;
        Some(Clamp(w, 0, MaxDuty))
  }

  /** A percentage maps onto the full duty range, 0 to 0 and 100 to full; larger integers are raw duties. */
  lemma BacklightPercent(v: nat, parseFloat: string -> Option<real>)
    ensures v <= 100 ==> BacklightValue(Decimal(v), parseFloat) == Some(v * MaxDuty / 100)
    ensures v > 100 ==> BacklightValue(Decimal(v), parseFloat) == Some(Min(v, MaxDuty))
  {
    ParseDecimal(v);
    DecimalDigits(v);
  }

  /** A negative integer turns the backlight fully off. */
  lemma BacklightNegative(n: nat, parseFloat: string -> Option<real>)
    requires n > 0
    ensures BacklightValue("-" + Decimal(n), parseFloat) == Some(0)
  {
    ParseDecimal(n);
    DecimalDigits(n);
    assert '.' !in "-" + Decimal(n) by {
      assert forall c | c in "-" + Decimal(n) :: c == '-' || c in Decimal(n);
    }
  }

  /** A decimal rendering holds no `.`. */
  lemma DecimalDigits(n: nat)
    ensures '.' !in Decimal(n)
  {
  }

  /** Which LED slot an `!led2` / `!led3` command reassigns. */
  datatype LedSlot = D2 | D3

  function WithLed(leds: Leds, slot: LedSlot, led: Option<int>): Leds {
    match slot
    case D2 => leds.(d2 := led)
    case D3 => leds.(d3 := led)
  }

  /**
   * `!led2 PIN [POL]` / `!led3 PIN [POL]`: the slot takes the new pin as soon as it
   * is built; a bad polarity then stops the command before the polarity changes and
   * before the test blink.
   */
  function AssignLed(d: Device, slot: LedSlot, arg: string, arg2: Option<string>, pinExists: int -> bool): (h: Handled)
  {
    var same := Handled(NoFrame, d, []);
    match ParseInt(arg)
    case None => same
    case Some(p) =>
      match MkLed(p, pinExists)
      case None => same
      case Some(led) =>
        var l1 := WithLed(d.leds, slot, led);
        if arg2.None? then Handled(NoFrame, Device(d.state, l1), Blink(led, l1.activeLow))
        else
          match ParseInt(arg2.value)
          case None => Handled(NoFrame, Device(d.state, l1), [])
          case Some(a) =>
            var l2 := l1.(activeLow := a != 0);
            Handled(NoFrame, Device(d.state, l2), Blink(led, l2.activeLow))
  }

  /**
   * `!probe PIN [POL] [MS]`: lights an arbitrary pin for MS milliseconds (default 120,
   * clamped to 10..2000), darkens it and returns it to input. Any argument that does
   * not parse, or a pin that cannot be built, stops it before the pin is touched.
   */
  function Probe(parts: seq<string>, d: Device, pinExists: int -> bool): (h: Handled)
    requires |parts| >= 2
  {
    var same := Handled(NoFrame, d, []);
    match ParseInt(parts[1])
    case None => same
    case Some(pin) =>
      var activeLow := if |parts| > 2 then (match ParseInt(parts[2]) case None => None case Some(a) => Some(a != 0))
                       else Some(true);
      var ms := if |parts| > 3 then ParseInt(parts[3]) else Some(120);
      if activeLow.None? || ms.None? || !pinExists(pin) then same
      else
        Handled(NoFrame, d, [PinOut(pin, LedLevel(true, activeLow.value)), Sleep(Clamp(ms.value, 10, 2000)),
                             PinOut(pin, LedLevel(false, activeLow.value)), PinIn(pin)])
  }

  /** What a device command word asks for, aliases folded together. */
  datatype Verb = Quit | SetContrast | SetRatio | SetBias | SetInvert | SetBacklightLevel
                | AssignD2 | AssignD3 | SetPolarity | ProbePin | SetTargetFps | UnknownVerb

  /** The command word, already lower-cased, and the verb it names. */
  function VerbOf(cmd: string): Verb {
    if cmd == "quit" || cmd == "exit" then Quit
    else if cmd == "contrast" || cmd == "c" then SetContrast
    else if cmd == "ratio" || cmd == "reg" then SetRatio
    else if cmd == "bias" then SetBias
    else if cmd == "invert" || cmd == "inv" then SetInvert
    else if cmd == "backlight" || cmd == "bl" then SetBacklightLevel
    else if cmd == "led2" || cmd == "d2" then AssignD2
    else if cmd == "led3" || cmd == "d3" then AssignD3
    else if cmd == "ledpol" || cmd == "led_polarity" then SetPolarity
    else if cmd == "probe" || cmd == "blinkpin" then ProbePin
    else if cmd == "targetfps" || cmd == "fps" then SetTargetFps
    else UnknownVerb
  }

  /**
   * A `!` command, split into words; the command word is compared case-insensitively.
   * Every command but `quit`/`exit` needs an argument and does nothing without one.
   */
  function RunCommand(parts: seq<string>, d: Device, board: Board): (h: Handled)
    requires parts != []
  {
    var verb := VerbOf(Lower(parts[0]));
    var st := d.state;
    var same := Handled(NoFrame, d, []);
    if verb == Quit then Handled(Exit, d, [])
    else if |parts| < 2 then same
    else
      var arg := parts[1];
      var arg2 := if |parts| > 2 then Some(parts[2]) else None;
      match verb
      case SetContrast =>
        (match ParseInt(arg)
         case None => same
         case Some(v) =>
           var c := Clamp(v, 0, 0x3F);
           Handled(NoFrame, Device(st.(contrast := c), d.leds), [LcdContrast(c)]))
      case SetRatio =>
        (match ParseInt(arg)
         case None => same
         case Some(v) =>
           var r := Clamp(v, 0, 7);
           Handled(NoFrame, Device(st.(regRatio := r), d.leds), [LcdRatio(r)]))
      case SetBias =>
        (match ParseInt(arg)
         case None => same
         case Some(v) => Handled(NoFrame, Device(st.(bias17 := v != 0), d.leds), [LcdBias(v != 0)]))
      case SetInvert =>
        (match ParseInt(arg)
         case None => same
         case Some(v) => Handled(NoFrame, Device(st.(invert := v != 0), d.leds), [LcdInvert(v != 0)]))
      case SetBacklightLevel =>
        (match BacklightValue(arg, board.parseFloat)
         case None => same
         case Some(v) => Handled(NoFrame, Device(st.(backlight := v), d.leds), SetBacklight(board.backlight, v)))
      case AssignD2 => AssignLed(d, D2, arg, arg2, board.pinExists)
      case AssignD3 => AssignLed(d, D3, arg, arg2, board.pinExists)
      case SetPolarity =>
        (match ParseInt(arg)
         case None => same
         case Some(v) => Handled(NoFrame, Device(st, d.leds.(activeLow := v != 0)), []))
      case ProbePin => Probe(parts, d, board.pinExists)
      case SetTargetFps =>
        (match ParseInt(arg)
         case None => same
         case Some(v) => Handled(NoFrame, Device(st.(targetFps := v), d.leds), []))
      case _ => same
  }

  /**
   * `handle_line`: a stripped line starting with `!` is a command; any other
   * non-blank line is a frame if it decodes to exactly 1024 bytes.
   */
  function HandleLine(line: string, d: Device, board: Board): (h: Handled)
  {
    var s := Strip(ByteSpaces, line);
    if s == [] then Handled(NoFrame, d, [])
    else if s[0] == '!' then
      var parts := Split(ByteSpaces, s[1..]);
      if parts == [] then Handled(NoFrame, d, []) else RunCommand(parts, d, board)
    else
      match board.decodeBase64(s)
      case Some(f) => if |f| == FrameBytes then Handled(Frame(f), d, []) else Handled(NoFrame, d, [])
      case None => Handled(NoFrame, d, [])
  }

  /** Blank lines and a bare `!` (with or without surrounding whitespace) do nothing. */
  lemma IgnoredLines(line: string, d: Device, board: Board)
    ensures AllSpace(ByteSpaces, line) ==> HandleLine(line, d, board) == Handled(NoFrame, d, [])
    ensures HandleLine("!", d, board) == Handled(NoFrame, d, [])
    ensures HandleLine(" ! \n", d, board) == Handled(NoFrame, d, [])
  {
    StripFacts(ByteSpaces, line);
    assert Strip(ByteSpaces, "!") == "!";
    assert Strip(ByteSpaces, " ! \n") == "!" by {
      assert TrimLeft(ByteSpaces, " ! \n") == "! \n" by { assert " ! \n"[1..] == "! \n"; }
      assert TrimRight(ByteSpaces, "! \n") == "!" by { assert "! \n"[..2] == "! " && "! "[..1] == "!"; }
    }
    assert "!"[1..] == [];
  }

  /** A frame is exactly a non-command line that decodes to 1024 bytes; it changes no setting and touches no pin. */
  lemma FrameLines(line: string, d: Device, board: Board)
    ensures var h := HandleLine(line, d, board);
      h.reply.Frame? <==> FrameLine(line, board)
    ensures var h := HandleLine(line, d, board);
      h.reply.Frame? ==> h.device == d && h.effects == [] && |h.reply.bytes| == FrameBytes
  {
    var s := Strip(ByteSpaces, line);
    if s != [] && s[0] == '!' {
      var parts := Split(ByteSpaces, s[1..]);
      if parts != [] {
        CommandNeverFrame(parts, d, board);
      }
    }
  }

  lemma CommandNeverFrame(parts: seq<string>, d: Device, board: Board)
    requires parts != []
    ensures !RunCommand(parts, d, board).reply.Frame?
    ensures RunCommand(parts, d, board).reply.Exit? <==> Lower(parts[0]) == "quit" || Lower(parts[0]) == "exit"
  {
  }

  /** Every line keeps the contrast, backlight and regulation ratio in their ranges. */
  lemma HandleLineInRange(line: string, d: Device, board: Board)
    requires InRange(d.state)
    ensures InRange(HandleLine(line, d, board).device.state)
  {
    var s := Strip(ByteSpaces, line);
    if s != [] && s[0] == '!' && Split(ByteSpaces, s[1..]) != [] {
      RunCommandInRange(Split(ByteSpaces, s[1..]), d, board);
    }
  }

  lemma RunCommandInRange(parts: seq<string>, d: Device, board: Board)
    requires parts != [] && InRange(d.state)
    ensures InRange(RunCommand(parts, d, board).device.state)
  {
    if |parts| >= 2 {
      LedsKeepState(parts, d, board);
    }
  }

  /** The LED and probe commands change no panel setting. */
  lemma LedsKeepState(parts: seq<string>, d: Device, board: Board)
    requires |parts| >= 2
    ensures AssignLed(d, D2, parts[1], if |parts| > 2 then Some(parts[2]) else None, board.pinExists).device.state == d.state
    ensures AssignLed(d, D3, parts[1], if |parts| > 2 then Some(parts[2]) else None, board.pinExists).device.state == d.state
    ensures Probe(parts, d, board.pinExists).device == d
  {
  }

  /** `quit` and `exit`, in any case, stop the firmware without changing anything. */
  lemma QuitLine(line: string, d: Device, board: Board)
    requires QuitCommandLine(line)
    ensures HandleLine(line, d, board) == Handled(Exit, d, [])
  {
  }

  /**
   * A command that cannot act returns nothing and changes nothing: an unknown word,
   * a known word without its argument, or an argument that does not parse.
   */
  lemma CommandWithoutEffect(parts: seq<string>, d: Device, board: Board)
    requires parts != [] && VerbOf(Lower(parts[0])) != Quit
    ensures VerbOf(Lower(parts[0])) == UnknownVerb ==> RunCommand(parts, d, board) == Handled(NoFrame, d, [])
    ensures |parts| == 1 ==> RunCommand(parts, d, board) == Handled(NoFrame, d, [])
    ensures |parts| >= 2 && VerbOf(Lower(parts[0])) != SetBacklightLevel && ParseInt(parts[1]).None? ==>
      RunCommand(parts, d, board) == Handled(NoFrame, d, [])
    ensures |parts| >= 2 && VerbOf(Lower(parts[0])) == SetBacklightLevel && BacklightValue(parts[1], board.parseFloat).None? ==>
      RunCommand(parts, d, board) == Handled(NoFrame, d, [])
  {
  }

  /** `!WORD ARG` followed by a newline splits into exactly the command word and its argument. */
  lemma CommandWords(cmd: string, arg: string)
    requires cmd != [] && NoSpace(ByteSpaces, cmd) && arg != [] && NoSpace(ByteSpaces, arg)
    ensures var s := Strip(ByteSpaces, "!" + cmd + " " + arg + "\n");
      s != [] && s[0] == '!' && Split(ByteSpaces, s[1..]) == [cmd, arg]
  {
    var body := "!" + cmd + " " + arg;
    var line := body + "\n";
    assert TrimLeft(ByteSpaces, line) == line;
    assert line[..|line| - 1] == body;
    assert TrimRight(ByteSpaces, body) == body by {
      assert !IsSpace(ByteSpaces, body[|body| - 1]) by { assert body[|body| - 1] == arg[|arg| - 1]; }
    }
    assert body[1..] == cmd + (" " + arg);
    SplitWord(ByteSpaces, cmd, " " + arg);
    assert (" " + arg)[1..] == arg;
    SplitToken(ByteSpaces, arg);
  }

  /** The contrast line the host sends at start-up sets the panel contrast to the requested level, capped at 63. */
  lemma ContrastLine(word: string, n: nat, d: Device, board: Board)
    requires word != [] && NoSpace(ByteSpaces, word) && VerbOf(Lower(word)) == SetContrast
    ensures var h := HandleLine("!" + word + " " + Decimal(n) + "\n", d, board);
      && h.reply == NoFrame
      && h.device == Device(d.state.(contrast := Min(n, 0x3F)), d.leds)
      && h.effects == [LcdContrast(Min(n, 0x3F))]
  {
    NumberCommandLine(word, n, d, board);
  }

  /** A number written out, with or without a minus sign, is one word. */
  lemma SignedDigits(n: nat)
    ensures NoSpace(ByteSpaces, Decimal(n)) && NoSpace(ByteSpaces, "-" + Decimal(n))
  {
    var digits := Decimal(n);
    var arg := "-" + digits;
    assert NoSpace(ByteSpaces, digits) by {
      forall i | 0 <= i < |digits| ensures !IsSpace(ByteSpaces, digits[i]) {
        assert IsDigit(digits[i]);
      }
    }
    assert NoSpace(ByteSpaces, arg) by {
      forall i | 0 <= i < |arg| ensures !IsSpace(ByteSpaces, arg[i]) {
        if i > 0 { assert arg[i] == digits[i - 1]; }
      }
    }
  }

  /** `!WORD n` reaches the command handler as the word and the number's digits, which parse back to n. */
  lemma NumberCommandLine(cmd: string, n: nat, d: Device, board: Board)
    requires cmd != [] && NoSpace(ByteSpaces, cmd)
    ensures HandleLine("!" + cmd + " " + Decimal(n) + "\n", d, board) == RunCommand([cmd, Decimal(n)], d, board)
    ensures ParseInt(Decimal(n)) == Some(n)
  {
    var digits := Decimal(n);
    SignedDigits(n);
    CommandWords(cmd, digits);
    ParseDecimal(n);
  }

  /**
   * `!reg n` (or `!ratio n`, in any case) sets the regulation ratio to n capped at 7 and sends it to
   * the panel.
   */
  lemma RatioLine(word: string, n: nat, d: Device, board: Board)
    requires word != [] && NoSpace(ByteSpaces, word) && VerbOf(Lower(word)) == SetRatio
    ensures var h := HandleLine("!" + word + " " + Decimal(n) + "\n", d, board);
      && h.reply == NoFrame
      && h.device == Device(d.state.(regRatio := Min(n, 7)), d.leds)
      && h.effects == [LcdRatio(Min(n, 7))]
  {
    NumberCommandLine(word, n, d, board);
  }

  /** `!bias n` selects the 1/7 bias exactly when n is not 0, and sends the choice. */
  lemma BiasLine(word: string, n: nat, d: Device, board: Board)
    requires word != [] && NoSpace(ByteSpaces, word) && VerbOf(Lower(word)) == SetBias
    ensures var h := HandleLine("!" + word + " " + Decimal(n) + "\n", d, board);
      && h.reply == NoFrame
      && h.device == Device(d.state.(bias17 := n != 0), d.leds)
      && h.effects == [LcdBias(n != 0)]
  {
    NumberCommandLine(word, n, d, board);
  }

  /** `!inv n` (or `!invert n`) inverts the panel exactly when n is not 0, and sends the choice. */
  lemma InvertLine(word: string, n: nat, d: Device, board: Board)
    requires word != [] && NoSpace(ByteSpaces, word) && VerbOf(Lower(word)) == SetInvert
    ensures var h := HandleLine("!" + word + " " + Decimal(n) + "\n", d, board);
      && h.reply == NoFrame
      && h.device == Device(d.state.(invert := n != 0), d.leds)
      && h.effects == [LcdInvert(n != 0)]
  {
    NumberCommandLine(word, n, d, board);
  }

  /** `!fps n` (or `!targetfps n`) stores n as the health target, unclamped, and touches no hardware. */
  lemma TargetFpsLine(word: string, n: nat, d: Device, board: Board)
    requires word != [] && NoSpace(ByteSpaces, word) && VerbOf(Lower(word)) == SetTargetFps
    ensures var h := HandleLine("!" + word + " " + Decimal(n) + "\n", d, board);
      && h.reply == NoFrame
      && h.device == Device(d.state.(targetFps := n), d.leds)
      && h.effects == []
  {
    NumberCommandLine(word, n, d, board);
  }

  /** `!ledpol n` makes the LEDs active-low exactly when n is not 0, and changes nothing else. */
  lemma PolarityLine(word: string, n: nat, d: Device, board: Board)
    requires word != [] && NoSpace(ByteSpaces, word) && VerbOf(Lower(word)) == SetPolarity
    ensures var h := HandleLine("!" + word + " " + Decimal(n) + "\n", d, board);
      && h.reply == NoFrame
      && h.device == Device(d.state, d.leds.(activeLow := n != 0))
      && h.effects == []
  {
    NumberCommandLine(word, n, d, board);
  }

  /**
   * `!probe p` (or `!blinkpin p`) on a pin the board has drives it low (lit, active-low by
   * default) for 120 ms, then high, then returns it to input; on a pin it lacks, nothing happens.
   * Nothing else changes.
   */
  lemma ProbeLine(word: string, p: nat, d: Device, board: Board)
    requires word != [] && NoSpace(ByteSpaces, word) && VerbOf(Lower(word)) == ProbePin
    ensures var h := HandleLine("!" + word + " " + Decimal(p) + "\n", d, board);
      && h.reply == NoFrame && h.device == d
      && h.effects == (if board.pinExists(p) then [PinOut(p, 0), Sleep(120), PinOut(p, 1), PinIn(p)] else [])
  {
    NumberCommandLine(word, p, d, board);
  }

  /**
   * `!probe PIN POL MS` lights the pin at the given polarity for MS milliseconds held to
   * 10..2000, darkens it and returns it to input.
   */
  lemma ProbeTimed(parts: seq<string>, pin: int, a: int, ms: int, d: Device, board: Board)
    requires |parts| == 4 && VerbOf(Lower(parts[0])) == ProbePin && board.pinExists(pin)
    requires ParseInt(parts[1]) == Some(pin) && ParseInt(parts[2]) == Some(a) && ParseInt(parts[3]) == Some(ms)
    ensures var h := RunCommand(parts, d, board);
      && h.reply == NoFrame && h.device == d && |h.effects| == 4
      && h.effects[0] == PinOut(pin, LedLevel(true, a != 0)) && h.effects[2] == PinOut(pin, LedLevel(false, a != 0))
      && h.effects[1].Sleep? && 10 <= h.effects[1].ms <= 2000
      && (10 <= ms <= 2000 ==> h.effects[1].ms == ms)
      && h.effects[3] == PinIn(pin)
  {
  }

  /** A negative contrast request turns the contrast down to 0. */
  lemma ContrastNegativeLine(word: string, n: nat, d: Device, board: Board)
    requires n > 0 && word != [] && NoSpace(ByteSpaces, word) && VerbOf(Lower(word)) == SetContrast
    ensures var h := HandleLine("!" + word + " -" + Decimal(n) + "\n", d, board);
      && h.reply == NoFrame
      && h.device == Device(d.state.(contrast := 0), d.leds)
      && h.effects == [LcdContrast(0)]
  {
    NegativeCommandLine(word, n, d, board);
  }

  /** `!WORD -n` reaches the command handler as the word and `-n`, which parses back to -n. */
  lemma NegativeCommandLine(cmd: string, n: nat, d: Device, board: Board)
    requires cmd != [] && NoSpace(ByteSpaces, cmd)
    ensures HandleLine("!" + cmd + " -" + Decimal(n) + "\n", d, board) == RunCommand([cmd, "-" + Decimal(n)], d, board)
    ensures ParseInt("-" + Decimal(n)) == Some(-(n as int))
  {
    var arg := "-" + Decimal(n);
    SignedDigits(n);
    CommandWords(cmd, arg);
    assert "!" + cmd + " -" + Decimal(n) + "\n" == "!" + cmd + " " + arg + "\n";
    ParseDecimal(n);
  }

  // ---------------------------------------------------------------------------
  // Buttons

  /** Buttons in the order of the `buttons` dict, taken as the scan order. */
  const Up: nat := 0
  const Down: nat := 1
  const Ok: nat := 2
  const Back: nat := 3
  const Bootsel: nat := 4
  const ButtonCount: nat := 5

  /**
   * The action for a new press of button `b` (levels: true = high = released).
   * OK is a modifier: with UP held it raises the regulation ratio, with DOWN held
   * it lowers it, with BACK held it toggles the bias, and alone it toggles inversion.
   */
  function Press(b: nat, st: DeviceState, levels: seq<bool>, kind: BacklightKind): (DeviceState, seq<Effect>)
    requires b < ButtonCount && |levels| == ButtonCount
  {
    if b == Up then
      var c := Min(0x3F, st.contrast + 1);
      (st.(contrast := c), [LcdContrast(c)])
    else if b == Down then
      var c := Max(0, st.contrast - 1);
      (st.(contrast := c), [LcdContrast(c)])
    else if b == Back then
      var v := Max(0, st.backlight - BacklightStep);
      (st.(backlight := v), SetBacklight(kind, v))
    else if b == Bootsel then
      var v := Min(MaxDuty, st.backlight + BacklightStep);
      (st.(backlight := v), SetBacklight(kind, v))
    else if !levels[Up] then
      var r := Min(7, st.regRatio + 1);
      (st.(regRatio := r), [LcdRatio(r)])
    else if !levels[Down] then
      var r := Max(0, st.regRatio - 1);
      (st.(regRatio := r), [LcdRatio(r)])
    else if !levels[Back] then
      (st.(bias17 := !st.bias17), [LcdBias(!st.bias17)])
    else
      (st.(invert := !st.invert), [LcdInvert(!st.invert)])
  }

  /** A new press is a high-to-low edge between the previous scan and this one. */
  predicate Pressed(prev: seq<bool>, levels: seq<bool>, b: nat)
    requires b < |prev| && b < |levels|
  {
    prev[b] && !levels[b]
  }

  /** One scan over buttons 0 .. n-1, in order, each newly pressed one acting on the state left by those before it. */
  function Scan(st: DeviceState, prev: seq<bool>, levels: seq<bool>, n: nat, kind: BacklightKind): (DeviceState, seq<Effect>)
    requires n <= ButtonCount && |prev| == ButtonCount && |levels| == ButtonCount
  {
    if n == 0 then (st, [])
    else
      var r := Scan(st, prev, levels, n - 1, kind);
      if Pressed(prev, levels, n - 1) then
        var p := Press(n - 1, r.0, levels, kind);
        (p.0, r.1 + p.1)
      else r
  }

  /** Without a new press nothing changes: holding a button does not repeat it. */
  lemma {:induction false} ScanNoEdge(st: DeviceState, prev: seq<bool>, levels: seq<bool>, n: nat, kind: BacklightKind)
    requires n <= ButtonCount && |prev| == ButtonCount && |levels| == ButtonCount
    requires forall b | 0 <= b < n :: !Pressed(prev, levels, b)
    ensures Scan(st, prev, levels, n, kind) == (st, [])
  {
    if n > 0 {
      ScanNoEdge(st, prev, levels, n - 1, kind);
    }
  }

  /** A scan keeps the settings in their ranges. */
  lemma {:induction false} ScanInRange(st: DeviceState, prev: seq<bool>, levels: seq<bool>, n: nat, kind: BacklightKind)
    requires n <= ButtonCount && |prev| == ButtonCount && |levels| == ButtonCount
    requires InRange(st)
    ensures InRange(Scan(st, prev, levels, n, kind).0)
  {
    if n > 0 {
      ScanInRange(st, prev, levels, n - 1, kind);
    }
  }

  /** When one button alone is newly pressed, the scan is that button's action. */
  lemma {:induction false} ScanSingle(st: DeviceState, prev: seq<bool>, levels: seq<bool>, n: nat, b: nat, kind: BacklightKind)
    requires n <= ButtonCount && |prev| == ButtonCount && |levels| == ButtonCount
    requires b < n && Pressed(prev, levels, b)
    requires forall c | 0 <= c < n && c != b :: !Pressed(prev, levels, c)
    ensures Scan(st, prev, levels, n, kind) == Press(b, st, levels, kind)
  {
    if n - 1 == b {
      ScanNoEdge(st, prev, levels, n - 1, kind);
      assert Press(b, st, levels, kind).1 == [] + Press(b, st, levels, kind).1;
    } else {
      ScanSingle(st, prev, levels, n - 1, b, kind);
    }
  }

  /**
   * What single presses do: UP and DOWN step the contrast by one and stop at 63 and 0;
   * BACK and BOOTSEL step the backlight by 4000 and stop at 0 and 65535; OK alone
   * flips inversion; OK with UP, DOWN or BACK held tunes the ratio or flips the bias.
   */
  lemma PressSteps(st: DeviceState, levels: seq<bool>, kind: BacklightKind)
    requires InRange(st) && |levels| == ButtonCount
    ensures var c := Press(Up, st, levels, kind).0.contrast;
      c <= 0x3F && (c == st.contrast + 1 || (c == st.contrast == 0x3F))
    ensures var c := Press(Down, st, levels, kind).0.contrast;
      c >= 0 && (c == st.contrast - 1 || (c == st.contrast == 0))
    ensures var v := Press(Back, st, levels, kind).0.backlight;
      0 <= v <= st.backlight && (v == st.backlight - BacklightStep || v == 0)
    ensures var v := Press(Bootsel, st, levels, kind).0.backlight;
      st.backlight <= v <= MaxDuty && (v == st.backlight + BacklightStep || v == MaxDuty)
    ensures levels[Up] && levels[Down] && levels[Back] ==>
      Press(Ok, st, levels, kind).0 == st.(invert := !st.invert)
    ensures !levels[Up] ==> Press(Ok, st, levels, kind).0 == st.(regRatio := Min(7, st.regRatio + 1))
    ensures levels[Up] && !levels[Down] ==> Press(Ok, st, levels, kind).0 == st.(regRatio := Max(0, st.regRatio - 1))
    ensures levels[Up] && levels[Down] && !levels[Back] ==> Press(Ok, st, levels, kind).0 == st.(bias17 := !st.bias17)
  {
  }

  // ---------------------------------------------------------------------------
  // Frame-rate health

  /** Healthy when at least `max(1, target - 3)` frames arrived in the last second. */
  predicate Healthy(framesWindow: nat, targetFps: int) {
    framesWindow >= Max(1, targetFps - 3)
  }

  /** The health LEDs: D2 lit when healthy, D3 lit when not. */
  function HealthLeds(framesWindow: nat, targetFps: int, leds: Leds): seq<Effect> {
    var ok := Healthy(framesWindow, targetFps);
    LedSet(leds.d2, ok, leds.activeLow) + LedSet(leds.d3, !ok, leds.activeLow)
  }

  /** With both LEDs fitted exactly one of them is lit, and it is D2 exactly when the window met the target. */
  lemma HealthOneLit(framesWindow: nat, targetFps: int, p2: int, p3: int, activeLow: bool)
    ensures var es := HealthLeds(framesWindow, targetFps, Leds(Some(p2), Some(p3), activeLow));
      && |es| == 2 && es[0].pin == p2 && es[1].pin == p3
      && es[0].level != es[1].level
      && ((es[0].level == 1) != activeLow <==> framesWindow >= Max(1, targetFps - 3))
  {
  }

  lemma HealthExamples()
    ensures Healthy(57, 60) && !Healthy(56, 60)
    ensures !Healthy(0, 2) && Healthy(1, 2)
  {
  }

  // ---------------------------------------------------------------------------
  // The firmware object

  /** The display commands a run of actions sends. */
  function EffectBus(e: Effect): seq<BusEvent> {
    match e
    case LcdContrast(v) => CmdsEvents(ContrastCommands(v))
    case LcdRatio(r) => CmdEvents(0x20 + Clamp(r, 0, 7))
    case LcdBias(b) => CmdEvents(0xA2 + BoolBit(b))
    case LcdInvert(b) => CmdEvents(if b then 0xA7 else 0xA6)
    case _ => []
  }

  /** The events of a run of actions, each action's events in turn. */
  function FlatMap<A, B>(f: A -> seq<B>, xs: seq<A>): seq<B> {
    if xs == [] then [] else FlatMap(f, xs[..|xs| - 1]) + f(xs[|xs| - 1])
  }

  function LcdBus(es: seq<Effect>): seq<BusEvent> {
    FlatMap(EffectBus, es)
  }

  /** What happens in one pass of the main loop. */
  datatype Input = Input(buttonsDue: bool, levels: seq<bool>, line: string, healthDue: bool)

  class Firmware {
    const lcd: ST7567
    const board: Board
    var state: DeviceState
    var leds: Leds
    var btnPrev: seq<bool>
    var framesWindow: nat
    /** Every hardware action taken, display commands included, in order. */
    var log: seq<Effect>

    predicate Valid()
      reads this, lcd.cmdBuf
    {
      && lcd.Valid() && lcd.width == 128 && lcd.pages == 8 && lcd.colOffset == 0
      && |btnPrev| == ButtonCount
      && InRange(state)
    }

    /**
     * Start-up: backlight on at the default duty, both LEDs built and dark, the display
     * initialised and flashed full then blank. The LED pins must exist on the board.
     */
    constructor(board: Board)
      requires board.pinExists(PinLedD2) && board.pinExists(PinLedD3)
      ensures Valid() && fresh(lcd) && fresh(lcd.cmdBuf) && this.board == board
      ensures state == DeviceState(DefaultContrast, DefaultBacklight, false, DefaultTargetFps, DefaultRegRatio, true)
      ensures leds == Leds(Some(PinLedD2), Some(PinLedD3), true)
      ensures btnPrev == [true, true, true, true, true] && framesWindow == 0
      ensures log == SetBacklight(board.backlight, DefaultBacklight)
        + [PinOut(PinLedD2, 1), PinOut(PinLedD3, 1), Sleep(150)]
      ensures lcd.bus == [Cs(1), Dc(0), Rst(1)] + ResetEvents()
        + CmdsEvents(InitCommands(DefaultContrast, false, DefaultRegRatio, 0, true, false, true))
        + ShowEvents(Solid(FrameBytes, true), 128, 0, 8)
        + ShowEvents(Solid(FrameBytes, false), 128, 0, 8)
    {
      this.board := board;
      state := DeviceState(DefaultContrast, DefaultBacklight, false, DefaultTargetFps, DefaultRegRatio, true);
      leds := Leds(Some(PinLedD2), Some(PinLedD3), true);
      btnPrev := [true, true, true, true, true];
      framesWindow := 0;
      var display := new ST7567(128, 64, 0, false, DefaultContrast, DefaultRegRatio, 0, true, false, true);
      lcd := display;
      log := SetBacklight(board.backlight, DefaultBacklight)
        + LedSet(Some(PinLedD2), false, true) + LedSet(Some(PinLedD3), false, true);
      new;
      assert lcd.width * lcd.pages == FrameBytes;
      lcd.Fill(true);
      log := log + [Sleep(150)];
      lcd.Fill(false);
    }

    /** Carries out actions in order: display commands through the driver, everything else on the pins. */
    method Perform(es: seq<Effect>)
      requires Valid()
      modifies this, lcd
      ensures Valid()
      ensures state == old(state) && leds == old(leds) && btnPrev == old(btnPrev) && framesWindow == old(framesWindow)
      ensures log == old(log) + es
      ensures lcd.bus == old(lcd.bus) + LcdBus(es)
    {
      for i := 0 to |es|
        invariant Valid()
        invariant state == old(state) && leds == old(leds) && btnPrev == old(btnPrev) && framesWindow == old(framesWindow)
        invariant log == old(log) + es[..i]
        invariant lcd.bus == old(lcd.bus) + LcdBus(es[..i])
      {
        assert es[..i + 1][..i] == es[..i];
        PerformOne(es[i]);
      }
      assert es[..|es|] == es;
    }

    /** One action: a display command through the driver, anything else on the pins. */
    method PerformOne(e: Effect)
      requires Valid()
      modifies this, lcd
      ensures Valid()
      ensures state == old(state) && leds == old(leds) && btnPrev == old(btnPrev) && framesWindow == old(framesWindow)
      ensures log == old(log) + [e]
      ensures lcd.bus == old(lcd.bus) + EffectBus(e)
    {
      match e {
        case LcdContrast(v) => lcd.SetContrast(v);
        case LcdRatio(r) => lcd.SetRegulationRatio(r);
        case LcdBias(b) => lcd.SetBias(b);
        case LcdInvert(b) => lcd.SetInvert(b);
        case _ =>
      }
      log := log + [e];
    }

    /** `handle_line` on the current settings, its actions carried out. */
    method HandleInputLine(line: string) returns (reply: Reply)
      requires Valid()
      modifies this, lcd
      ensures Valid()
      ensures var h := HandleLine(line, old(Device(state, leds)), board);
        && reply == h.reply && Device(state, leds) == h.device
        && log == old(log) + h.effects && lcd.bus == old(lcd.bus) + LcdBus(h.effects)
      ensures btnPrev == old(btnPrev) && framesWindow == old(framesWindow)
    {
      var h := HandleLine(line, Device(state, leds), board);
      HandleLineInRange(line, Device(state, leds), board);
      state := h.device.state;
      leds := h.device.leds;
      Perform(h.effects);
      reply := h.reply;
    }

    /** One button scan: each button in order, a new press acting at once, every previous level updated. */
    method ScanButtons(levels: seq<bool>)
      requires Valid() && |levels| == ButtonCount
      modifies this, lcd
      ensures Valid()
      ensures var r := Scan(old(state), old(btnPrev), levels, |levels|, board.backlight);
        && state == r.0 && log == old(log) + r.1 && lcd.bus == old(lcd.bus) + LcdBus(r.1)
      ensures btnPrev == levels && leds == old(leds) && framesWindow == old(framesWindow)
    {
      var prev := btnPrev;
      for b := 0 to |levels|
        invariant Valid()
        invariant leds == old(leds) && framesWindow == old(framesWindow)
        invariant forall k | 0 <= k < ButtonCount :: btnPrev[k] == if k < b then levels[k] else prev[k]
        invariant var r := Scan(old(state), prev, levels, b, board.backlight);
          state == r.0 && log == old(log) + r.1 && lcd.bus == old(lcd.bus) + LcdBus(r.1)
      {
        ghost var r := Scan(old(state), prev, levels, b, board.backlight);
        ghost var busBefore := lcd.bus;
        assert btnPrev[b] == prev[b];
        ScanOne(b, levels);
        if Pressed(prev, levels, b) {
          var p := Press(b, r.0, levels, board.backlight);
          FlatMapStep(EffectBus, old(lcd.bus), busBefore, lcd.bus, r.1, p.1);
        }
      }
      assert btnPrev == levels;
    }

    /** One button of a scan: its action on a new press, then its previous level updated. */
    method ScanOne(b: nat, levels: seq<bool>)
      requires Valid() && b < ButtonCount && |levels| == ButtonCount
      modifies this, lcd
      ensures Valid()
      ensures leds == old(leds) && framesWindow == old(framesWindow)
      ensures btnPrev == old(btnPrev)[b := levels[b]]
      ensures Pressed(old(btnPrev), levels, b) ==>
        var p := Press(b, old(state), levels, board.backlight);
        state == p.0 && log == old(log) + p.1 && lcd.bus == old(lcd.bus) + LcdBus(p.1)
      ensures !Pressed(old(btnPrev), levels, b) ==>
        state == old(state) && log == old(log) && lcd.bus == old(lcd.bus)
    {
      if btnPrev[b] && !levels[b] {
        var p := Press(b, state, levels, board.backlight);
        PressInRange(b, state, levels, board.backlight);
        state := p.0;
        Perform(p.1);
      }
      btnPrev := btnPrev[b := levels[b]];
    }

    /** The once-a-second check: the health LEDs are set and the frame count starts over. */
    method HealthCheck()
      requires Valid()
      modifies this, lcd
      ensures Valid()
      ensures log == old(log) + HealthLeds(old(framesWindow), state.targetFps, leds)
      ensures framesWindow == 0 && lcd.bus == old(lcd.bus)
      ensures state == old(state) && leds == old(leds) && btnPrev == old(btnPrev)
    {
      var ok := framesWindow >= Max(1, state.targetFps - 3);
      LedSetBus(leds.d2, ok, leds.activeLow);
      LedSetBus(leds.d3, !ok, leds.activeLow);
      Perform(LedSet(leds.d2, ok, leds.activeLow));
      Perform(LedSet(leds.d3, !ok, leds.activeLow));
      framesWindow := 0;
    }

    /**
     * One pass of the main loop: a due button scan, one input line (a frame is shown
     * and counted), then a due health check. Returns true when the line asked to stop.
     */
    method Pass(input: Input) returns (exit: bool)
      requires Valid() && |input.levels| == ButtonCount
      modifies this, lcd, lcd.cmdBuf
      ensures Valid()
      ensures var r := MainPass(old(Device(state, leds)), old(btnPrev), old(framesWindow), input, board);
        && exit == r.exit && Device(state, leds) == r.device && btnPrev == r.btnPrev
        && framesWindow == r.framesWindow && log == old(log) + r.effects && lcd.bus == old(lcd.bus) + r.bus
    {
      ghost var d, prev, window := Device(state, leds), btnPrev, framesWindow;
      ghost var sc := ScanIfDue(state, btnPrev, input, board.backlight);
      if input.buttonsDue {
        ScanButtons(input.levels);
      } else {
        assert log == old(log) + sc.1 && lcd.bus == old(lcd.bus) + LcdBus(sc.1);
      }
      var reply := TakeLine(input.line);
      ghost var h := HandleLine(input.line, Device(sc.0, d.leds), board);
      SeqAssoc(old(log), sc.1, h.effects);
      SeqAssoc(old(lcd.bus), LcdBus(sc.1), LcdBus(h.effects));
      SeqAssoc(old(lcd.bus), LcdBus(sc.1) + LcdBus(h.effects), FrameBus(h.reply));
      exit := reply.Exit?;
      if !exit && input.healthDue {
        ghost var counted := framesWindow;
        HealthCheck();
        SeqAssoc(old(log), sc.1 + h.effects, HealthLeds(counted, h.device.state.targetFps, h.device.leds));
      } else {
        assert sc.1 + h.effects + [] == sc.1 + h.effects;
      }
      MainPassParts(d, prev, window, input, board, sc, h);
    }

    /** One input line: `handle_line`, then a frame it returns is shown and counted. */
    method TakeLine(line: string) returns (reply: Reply)
      requires Valid()
      modifies this, lcd, lcd.cmdBuf
      ensures Valid()
      ensures var h := HandleLine(line, old(Device(state, leds)), board);
        && reply == h.reply && Device(state, leds) == h.device
        && log == old(log) + h.effects && lcd.bus == old(lcd.bus) + LcdBus(h.effects) + FrameBus(h.reply)
        && framesWindow == old(framesWindow) + (if h.reply.Frame? then 1 else 0)
      ensures btnPrev == old(btnPrev)
    {
      FrameLines(line, Device(state, leds), board);
      reply := HandleInputLine(line);
      if reply.Frame? {
        var shown := lcd.Show(reply.bytes);
        framesWindow := framesWindow + 1;
      }
    }
  }

  /** The settings and actions of a pass's button scan, when one is due. */
  function ScanIfDue(st: DeviceState, prev: seq<bool>, input: Input, kind: BacklightKind): (DeviceState, seq<Effect>)
    requires |prev| == ButtonCount && |input.levels| == ButtonCount
  {
    if input.buttonsDue then Scan(st, prev, input.levels, ButtonCount, kind) else (st, [])
  }

  /** The display traffic of `lcd.show` for a reply that carries a frame. */
  function FrameBus(reply: Reply): seq<BusEvent> {
    if reply.Frame? && |reply.bytes| == FrameBytes then ShowEvents(reply.bytes, 128, 0, 8) else []
  }

  /** What one pass of the main loop leaves: the stop flag, the settings, the button levels and the frame count,
    * the hardware actions taken and the display traffic. */
  datatype PassOutcome = PassOutcome(exit: bool, device: Device, btnPrev: seq<bool>, framesWindow: nat,
                                     effects: seq<Effect>, bus: seq<BusEvent>)

  /**
   * One pass of the main loop. A due scan runs first; `quit` leaves at once; a frame is
   * shown and counted; a due health check judges the count, this pass's frame included,
   * and starts it over.
   */
  function MainPass(d: Device, prev: seq<bool>, framesWindow: nat, input: Input, board: Board): PassOutcome
    requires |prev| == ButtonCount && |input.levels| == ButtonCount
  {
    var sc := ScanIfDue(d.state, prev, input, board.backlight);
    var prev' := if input.buttonsDue then input.levels else prev;
    var h := HandleLine(input.line, Device(sc.0, d.leds), board);
    var bus := LcdBus(sc.1) + LcdBus(h.effects);
    if h.reply.Exit? then PassOutcome(true, h.device, prev', framesWindow, sc.1 + h.effects, bus)
    else
      var counted := framesWindow + (if h.reply.Frame? then 1 else 0);
      if input.healthDue then
        PassOutcome(false, h.device, prev', 0,
                    sc.1 + h.effects + HealthLeds(counted, h.device.state.targetFps, h.device.leds),
                    bus + FrameBus(h.reply))
      else PassOutcome(false, h.device, prev', counted, sc.1 + h.effects, bus + FrameBus(h.reply))
  }

  /** `MainPass` in terms of the scan's and the line's own results. */
  lemma MainPassParts(d: Device, prev: seq<bool>, framesWindow: nat, input: Input, board: Board,
                      sc: (DeviceState, seq<Effect>), h: Handled)
    requires |prev| == ButtonCount && |input.levels| == ButtonCount
    requires sc == ScanIfDue(d.state, prev, input, board.backlight)
    requires h == HandleLine(input.line, Device(sc.0, d.leds), board)
    ensures var r := MainPass(d, prev, framesWindow, input, board);
      var counted := framesWindow + (if h.reply.Frame? then 1 else 0);
      && r.exit == h.reply.Exit? && r.device == h.device
      && r.btnPrev == (if input.buttonsDue then input.levels else prev)
      && r.framesWindow == (if !r.exit && input.healthDue then 0 else counted)
      && r.effects == sc.1 + h.effects
                      + (if !r.exit && input.healthDue then HealthLeds(counted, h.device.state.targetFps, h.device.leds) else [])
      && r.bus == LcdBus(sc.1) + LcdBus(h.effects) + FrameBus(h.reply)
  {
  }

  /** A line that is a `!quit` or `!exit` command, in any case. */
  predicate QuitCommandLine(line: string) {
    var s := Strip(ByteSpaces, line);
    s != [] && s[0] == '!' && Split(ByteSpaces, s[1..]) != [] && VerbOf(Lower(Split(ByteSpaces, s[1..])[0])) == Quit
  }

  /** A non-command line that decodes to exactly one packed frame. */
  predicate FrameLine(line: string, board: Board) {
    var s := Strip(ByteSpaces, line);
    s != [] && s[0] != '!' && board.decodeBase64(s).Some? && |board.decodeBase64(s).value| == FrameBytes
  }

  /**
   * A frame line in a pass without a button scan shows exactly the decoded frame, changes no
   * setting and counts the frame; a due health check judges the count with this frame in it.
   */
  lemma PassFrame(d: Device, prev: seq<bool>, framesWindow: nat, input: Input, board: Board)
    requires |prev| == ButtonCount && |input.levels| == ButtonCount
    requires !input.buttonsDue && FrameLine(input.line, board)
    ensures var r := MainPass(d, prev, framesWindow, input, board);
      && !r.exit && r.device == d && r.btnPrev == prev
      && r.bus == ShowEvents(board.decodeBase64(Strip(ByteSpaces, input.line)).value, 128, 0, 8)
      && r.framesWindow == (if input.healthDue then 0 else framesWindow + 1)
      && r.effects == (if input.healthDue then HealthLeds(framesWindow + 1, d.state.targetFps, d.leds) else [])
  {
    FrameLines(input.line, d, board);
    assert LcdBus([]) == [];
  }

  /**
   * The frame count after a pass: unchanged by a stop, 0 after a health check, and
   * otherwise one more exactly when the line was a frame.
   */
  lemma PassCount(d: Device, prev: seq<bool>, framesWindow: nat, input: Input, board: Board)
    requires |prev| == ButtonCount && |input.levels| == ButtonCount
    ensures var r := MainPass(d, prev, framesWindow, input, board);
      r.framesWindow == if r.exit then framesWindow
                        else if input.healthDue then 0
                        else framesWindow + (if FrameLine(input.line, board) then 1 else 0)
  {
    var sc := ScanIfDue(d.state, prev, input, board.backlight);
    FrameLines(input.line, Device(sc.0, d.leds), board);
  }

  /**
   * A pass stops exactly on `!quit` or `!exit`; it then shows nothing and skips the health
   * check, so only the button scan acted.
   */
  lemma PassExit(d: Device, prev: seq<bool>, framesWindow: nat, input: Input, board: Board)
    requires |prev| == ButtonCount && |input.levels| == ButtonCount
    ensures var r := MainPass(d, prev, framesWindow, input, board);
      && (r.exit <==> QuitCommandLine(input.line))
      && (r.exit ==> r.framesWindow == framesWindow
                     && r.effects == ScanIfDue(d.state, prev, input, board.backlight).1
                     && r.bus == LcdBus(r.effects))
  {
    var sc := ScanIfDue(d.state, prev, input, board.backlight);
    var s := Strip(ByteSpaces, input.line);
    if s != [] && s[0] == '!' && Split(ByteSpaces, s[1..]) != [] {
      CommandNeverFrame(Split(ByteSpaces, s[1..]), Device(sc.0, d.leds), board);
    }
    if QuitCommandLine(input.line) {
      QuitLine(input.line, Device(sc.0, d.leds), board);
      assert LcdBus([]) == [];
    }
  }

  /**
   * A pass with a due health check that does not stop starts the count over and ends by
   * lighting exactly one of D2 and D3: D2 when the count, this pass's frame included, met
   * the target.
   */
  lemma PassHealth(d: Device, prev: seq<bool>, framesWindow: nat, input: Input, board: Board)
    requires |prev| == ButtonCount && |input.levels| == ButtonCount && input.healthDue
    ensures var r := MainPass(d, prev, framesWindow, input, board);
      var leds := r.device.leds;
      var ok := Healthy(framesWindow + (if FrameLine(input.line, board) then 1 else 0), r.device.state.targetFps);
      !r.exit && leds.d2.Some? && leds.d3.Some? ==>
        && r.framesWindow == 0 && |r.effects| >= 2
        && r.effects[|r.effects| - 2] == PinOut(leds.d2.value, LedLevel(ok, leds.activeLow))
        && r.effects[|r.effects| - 1] == PinOut(leds.d3.value, LedLevel(!ok, leds.activeLow))
        && LedLevel(ok, leds.activeLow) != LedLevel(!ok, leds.activeLow)
  {
    var sc := ScanIfDue(d.state, prev, input, board.backlight);
    FrameLines(input.line, Device(sc.0, d.leds), board);
  }

  lemma PressInRange(b: nat, st: DeviceState, levels: seq<bool>, kind: BacklightKind)
    requires b < ButtonCount && |levels| == ButtonCount && InRange(st)
    ensures InRange(Press(b, st, levels, kind).0)
  {
  }

  lemma FlatMapStep<A, B>(f: A -> seq<B>, start: seq<B>, mid: seq<B>, now: seq<B>, a: seq<A>, b: seq<A>)
    requires mid == start + FlatMap(f, a) && now == mid + FlatMap(f, b)
    ensures now == start + FlatMap(f, a + b)
  {
    FlatMapAppend(f, a, b);
    SeqAssoc(start, FlatMap(f, a), FlatMap(f, b));
  }

  lemma SeqAssoc<T>(x: seq<T>, y: seq<T>, z: seq<T>)
    ensures x + y + z == x + (y + z)
  {
  }

  /** LED actions send nothing to the display. */
  lemma LedSetBus(led: Option<int>, on: bool, activeLow: bool)
    ensures LcdBus(LedSet(led, on, activeLow)) == []
  {
    var es := LedSet(led, on, activeLow);
    if es != [] {
      assert es[..0] == [];
      assert LcdBus(es) == FlatMap(EffectBus, es[..0]) + EffectBus(es[0]);
    }
  }

  lemma {:induction false} FlatMapAppend<A, B>(f: A -> seq<B>, a: seq<A>, b: seq<A>)
    ensures FlatMap(f, a + b) == FlatMap(f, a) + FlatMap(f, b)
    decreases |b|
  {
    if b == [] {
      assert a + b == a;
    } else {
      var b' := b[..|b| - 1];
      FlatMapAppend(f, a, b');
      assert (a + b)[..|a + b| - 1] == a + b';
    }
  }
}
