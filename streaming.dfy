/**
 * The host's main loop: it reads raw frames from the decoder's output pipe,
 * applies queued host commands, forwards queued device commands, optionally
 * skips frames to catch up with the wall clock, processes each frame and
 * writes it to the serial link as one line.
 */
module Streaming {
  import opened Wrappers
  import opened Text
  import opened Bytes
  import opened Packing
  import opened ImageProcessor
  import opened ControlChannel

  // ---------------------------------------------------------------------------
  // The decoder's output pipe and `read_exact`

  /**
   * The bytes the decoder has still to deliver. One `read(k)` returns between one
   * and k of them, however the pipe happens to chunk them, and nothing only at the end.
   */
  class Pipe {
    var pending: seq<Byte>

    constructor(data: seq<Byte>)
      ensures pending == data
    {
      pending := data;
    }

    method Read(k: nat) returns (chunk: seq<Byte>)
      modifies this
      ensures |chunk| <= k && |chunk| <= |old(pending)| && chunk == old(pending)[..|chunk|]
      ensures pending == old(pending)[|chunk|..]
      ensures k > 0 ==> (chunk == [] <==> old(pending) == [])
    {
      if k == 0 || pending == [] {
        chunk := [];
      } else {
        var m :| 1 <= m <= k && m <= |pending|;
        chunk := pending[..m];
        pending := pending[m..];
      }
    }
  }

  /**
   * `read_exact`: the next n bytes of the pipe, or everything that was left when
   * the pipe ends first. The result is short only at the end of the stream.
   */
  method ReadExact(pipe: Pipe, n: nat) returns (r: seq<Byte>)
    modifies pipe
    ensures r == old(pipe.pending)[..Min(n, |old(pipe.pending)|)]
    ensures pipe.pending == old(pipe.pending)[|r|..]
  {
    var out := new Byte[n](_ => 0);
    var got := 0;
    while got < n
      invariant got <= n && got <= |old(pipe.pending)|
      invariant out[..got] == old(pipe.pending)[..got]
      invariant pipe.pending == old(pipe.pending)[got..]
      decreases n - got
    {
      var chunk := pipe.Read(n - got);
      if chunk == [] {
        return out[..got];
      }
      forall i | 0 <= i < |chunk| {
        out[got + i] := chunk[i];
      }
      assert out[..got + |chunk|] == out[..got] + chunk;
      got := got + |chunk|;
    }
    r := out[..];
    assert r == out[..got];
  }

  // ---------------------------------------------------------------------------
  // The loop's state and one pass through it

  /** What the host writes to the serial link: a base64 frame line, or a device command line. */
  datatype WireLine = FrameLine(payload: seq<Byte>) | CommandLine(text: string)

  /** The options fixed at start-up. */
  datatype Options = Options(
    defaults: Config,
    fps: real,
    realtime: bool,
    dropFrames: bool,
    framesLimit: nat)

  /** Everything one pass of the loop reads and writes. */
  datatype HostState = HostState(
    cfg: Config,
    start: Option<real>,
    framesIdx: nat,
    framesSent: nat,
    framesDropped: nat,
    video: seq<Byte>,
    hostQueue: seq<(string, string)>,
    deviceQueue: seq<string>,
    wire: seq<WireLine>)

  /** How a pass ends: go round again, stop normally (end of stream, frame limit), or stop on an uncaught error. */
  datatype Outcome = Running | Stopped | Aborted

  /** The counters agree and every frame sent so far came after the start time was taken. */
  predicate Consistent(s: HostState, opts: Options) {
    && s.framesIdx == s.framesSent + s.framesDropped
    && (s.start.Some? <==> s.framesSent > 0)
    && (opts.framesLimit > 0 ==> s.framesSent < opts.framesLimit)
  }

  /** How many frames the catch-up step skips: none before the first frame was sent, at most two seconds' worth. */
  function DropCount(start: Option<real>, now: real, fps: real, framesIdx: nat): (k: nat)
    ensures start.None? ==> k == 0
  {
    var shouldHave := if start.Some? then Trunc((now - start.value) * fps) else 0;
    var behind := shouldHave - framesIdx;
    if behind > 1 then
      var drop := Min(behind - 1, Trunc(fps * 2.0));
      if drop > 0 then drop else 0
    else 0
  }

  /** The host queue drained in order, or `None` when an entry stops the host. */
  function DrainHost(s: HostState, opts: Options, parseFloat: string -> FloatValue): Option<HostState> {
    match ApplyEntries(s.cfg, opts.defaults, s.hostQueue, parseFloat)
    case Crashed => None
    case Applied(c) => Some(s.(cfg := c, hostQueue := []))
  }

  /** The device queue written to the link in order. */
  function ForwardDevice(s: HostState): HostState {
    s.(wire := s.wire + CommandLines(s.deviceQueue), deviceQueue := [])
  }

  /** Each queued device line becomes one line on the link, in order. */
  function CommandLines(q: seq<string>): (r: seq<WireLine>)
    ensures |r| == |q| && forall i | 0 <= i < |q| :: r[i] == CommandLine(q[i])
  {
    if q == [] then [] else CommandLines(q[..|q| - 1]) + [CommandLine(q[|q| - 1])]
  }

  /** Skips k frames; a short read on the way ends the stream. */
  function SkipFrames(s: HostState, k: nat): (r: (HostState, bool))
    ensures !r.1 ==> r.0.framesIdx == s.framesIdx + k && r.0.framesDropped == s.framesDropped + k
  {
    if |s.video| / RawFrameBytes < k then
      var n := |s.video| / RawFrameBytes;
      (s.(framesIdx := s.framesIdx + n, framesDropped := s.framesDropped + n, video := []), true)
    else
      (s.(framesIdx := s.framesIdx + k, framesDropped := s.framesDropped + k, video := s.video[RawFrameBytes * k..]), false)
  }

  /** Reads, processes and sends one frame, then applies the frame limit. */
  function SendFrame(s: HostState, opts: Options, sendTime: real, gammaCurve: real -> Curve): (HostState, Outcome) {
    if |s.video| < RawFrameBytes then (s.(video := []), Stopped)
    else
      var raw := s.video[..RawFrameBytes];
      var s1 := s.(video := s.video[RawFrameBytes..], framesIdx := s.framesIdx + 1);
      match Process(raw, s1.cfg, gammaCurve)
      case Failure(_) => (s1, Aborted)
      case Success(payload) =>
        var s2 := s1.(start := if s1.framesSent == 0 then Some(sendTime) else s1.start,
                      wire := s1.wire + [FrameLine(payload)],
                      framesSent := s1.framesSent + 1);
        (s2, if opts.framesLimit > 0 && s2.framesSent >= opts.framesLimit then Stopped else Running)
  }

  /**
   * One pass of the loop. `now` is the clock reading of the catch-up check and
   * `sendTime` the one taken when the first frame goes out.
   */
  function Step(s: HostState, opts: Options, now: real, sendTime: real,
                gammaCurve: real -> Curve, parseFloat: string -> FloatValue): (HostState, Outcome)
  {
    match DrainHost(s, opts, parseFloat)
    case None => (s, Aborted)
    case Some(s1) => ForwardAndSend(s1, opts, now, sendTime, gammaCurve)
  }

  /** The pass after the host queue: the device queue goes out, late frames are skipped, one frame is sent. */
  function ForwardAndSend(s: HostState, opts: Options, now: real, sendTime: real,
                          gammaCurve: real -> Curve): (HostState, Outcome)
  {
    var s2 := ForwardDevice(s);
    var k := if opts.realtime && opts.dropFrames then DropCount(s2.start, now, opts.fps, s2.framesIdx) else 0;
    var (s3, eof) := SkipFrames(s2, k);
    if eof then (s3, Stopped)
    else SendFrame(s3, opts, sendTime, gammaCurve)
  }

  // ---------------------------------------------------------------------------
  // Properties of one pass

  /** A pass that goes on keeps the counters consistent and stays below the frame limit. */
  lemma StepConsistent(s: HostState, opts: Options, now: real, sendTime: real,
                       gammaCurve: real -> Curve, parseFloat: string -> FloatValue)
    requires Consistent(s, opts)
    ensures var (t, outcome) := Step(s, opts, now, sendTime, gammaCurve, parseFloat);
      outcome == Running ==> Consistent(t, opts) && t.framesSent == s.framesSent + 1
  {
  }

  /** Only the first frame sent sets the start time; later passes keep it. */
  lemma StepStart(s: HostState, opts: Options, now: real, sendTime: real,
                  gammaCurve: real -> Curve, parseFloat: string -> FloatValue)
    requires Consistent(s, opts)
    ensures var (t, outcome) := Step(s, opts, now, sendTime, gammaCurve, parseFloat);
      outcome == Running ==> t.start == if s.framesSent == 0 then Some(sendTime) else s.start
  {
  }

  /**
   * The link receives the queued device lines in order, then the processed frame;
   * a frame line always holds exactly 1024 bytes.
   */
  lemma StepWire(s: HostState, opts: Options, now: real, sendTime: real,
                 gammaCurve: real -> Curve, parseFloat: string -> FloatValue)
    ensures var (t, outcome) := Step(s, opts, now, sendTime, gammaCurve, parseFloat);
      |t.wire| >= |s.wire| && t.wire[..|s.wire|] == s.wire
    ensures var (t, outcome) := Step(s, opts, now, sendTime, gammaCurve, parseFloat);
      outcome == Running ==>
        && |t.wire| == |s.wire| + |s.deviceQueue| + 1
        && t.wire[..|s.wire|] == s.wire
        && (forall i | 0 <= i < |s.deviceQueue| :: t.wire[|s.wire| + i] == CommandLine(s.deviceQueue[i]))
        && t.wire[|t.wire| - 1].FrameLine?
        && |t.wire[|t.wire| - 1].payload| == PackedFrameBytes
  {
    if DrainHost(s, opts, parseFloat).Some? {
      ForwardAndSendWire(DrainHost(s, opts, parseFloat).value, opts, now, sendTime, gammaCurve);
    }
  }

  lemma ForwardAndSendWire(s: HostState, opts: Options, now: real, sendTime: real, gammaCurve: real -> Curve)
    ensures var (t, outcome) := ForwardAndSend(s, opts, now, sendTime, gammaCurve);
      |t.wire| >= |s.wire| && t.wire[..|s.wire|] == s.wire
    ensures var (t, outcome) := ForwardAndSend(s, opts, now, sendTime, gammaCurve);
      outcome == Running ==>
        && |t.wire| == |s.wire| + |s.deviceQueue| + 1
        && t.wire[..|s.wire|] == s.wire
        && (forall i | 0 <= i < |s.deviceQueue| :: t.wire[|s.wire| + i] == CommandLine(s.deviceQueue[i]))
        && t.wire[|t.wire| - 1].FrameLine?
        && |t.wire[|t.wire| - 1].payload| == PackedFrameBytes
  {
    var s2 := ForwardDevice(s);
    var k := if opts.realtime && opts.dropFrames then DropCount(s2.start, now, opts.fps, s2.framesIdx) else 0;
    var r := SkipFrames(s2, k);
    assert r.0.wire == s.wire + CommandLines(s.deviceQueue);
    if !r.1 {
      SendFrameWire(r.0, opts, sendTime, gammaCurve);
      WireAfterQueue(s.wire, s.deviceQueue, SendFrame(r.0, opts, sendTime, gammaCurve).0.wire);
    } else {
      assert r.0.wire[..|s.wire|] == s.wire;
    }
  }

  /** Grown from `w + CommandLines(q)`, the link still starts with `w` followed by the lines of `q`. */
  lemma WireAfterQueue(w: seq<WireLine>, q: seq<string>, t: seq<WireLine>)
    requires |t| >= |w| + |q| && t[..|w| + |q|] == w + CommandLines(q)
    ensures t[..|w|] == w
    ensures forall i | 0 <= i < |q| :: t[|w| + i] == CommandLine(q[i])
  {
    assert t[..|w|] == t[..|w| + |q|][..|w|];
    forall i | 0 <= i < |q|
      ensures t[|w| + i] == CommandLine(q[i])
    {
      assert t[|w| + i] == t[..|w| + |q|][|w| + i];
    }
  }

  /** Sending appends at most one line, and a pass that goes on appends one packed frame. */
  lemma SendFrameWire(s: HostState, opts: Options, sendTime: real, gammaCurve: real -> Curve)
    ensures var (t, outcome) := SendFrame(s, opts, sendTime, gammaCurve);
      t.wire == s.wire || (|t.wire| == |s.wire| + 1 && t.wire[..|s.wire|] == s.wire)
    ensures var (t, outcome) := SendFrame(s, opts, sendTime, gammaCurve);
      outcome == Running ==>
        && |t.wire| == |s.wire| + 1 && t.wire[..|s.wire|] == s.wire
        && t.wire[|s.wire|].FrameLine? && |t.wire[|s.wire|].payload| == PackedFrameBytes
  {
    if |s.video| >= RawFrameBytes {
      var raw := s.video[..RawFrameBytes];
      var s1 := s.(video := s.video[RawFrameBytes..], framesIdx := s.framesIdx + 1);
      match Process(raw, s1.cfg, gammaCurve)
      case Failure(_) =>
      case Success(payload) =>
        assert (s.wire + [FrameLine(payload)])[..|s.wire|] == s.wire;
    }
  }

  /**
   * After `skipped` frames of `video` were read and discarded, the next raw frame was
   * processed with `cfg` into the last line of `t`'s link, and the rest of the video is left.
   */
  predicate SentFrom(video: seq<Byte>, skipped: int, cfg: Config, gammaCurve: real -> Curve, t: HostState) {
    && 0 <= skipped && |video| >= RawFrameBytes * (skipped + 1)
    && t.wire != [] && t.wire[|t.wire| - 1].FrameLine?
    && Process(video[RawFrameBytes * skipped..RawFrameBytes * (skipped + 1)], cfg, gammaCurve)
       == Success(t.wire[|t.wire| - 1].payload)
    && t.video == video[RawFrameBytes * (skipped + 1)..]
  }

  /** The frame sent is the processed form of the next unread raw frame, after the skipped ones. */
  lemma StepFrame(s: HostState, opts: Options, now: real, sendTime: real,
                  gammaCurve: real -> Curve, parseFloat: string -> FloatValue)
    requires DrainHost(s, opts, parseFloat).Some?
    ensures var (t, outcome) := Step(s, opts, now, sendTime, gammaCurve, parseFloat);
      outcome == Running ==>
        SentFrom(s.video, t.framesDropped - s.framesDropped, DrainHost(s, opts, parseFloat).value.cfg, gammaCurve, t)
  {
    var s1 := DrainHost(s, opts, parseFloat).value;
    var s2 := ForwardDevice(s1);
    var k := if opts.realtime && opts.dropFrames then DropCount(s2.start, now, opts.fps, s2.framesIdx) else 0;
    var (s3, eof) := SkipFrames(s2, k);
    if !eof && |s3.video| >= RawFrameBytes {
      assert s3.video == s.video[RawFrameBytes * k..];
      assert s3.video[..RawFrameBytes] == s.video[RawFrameBytes * k..RawFrameBytes * (k + 1)];
      assert s3.video[RawFrameBytes..] == s.video[RawFrameBytes * (k + 1)..];
    }
  }

  /** Settings every frame can be processed with: a known dither and a positive gamma. */
  predicate Workable(cfg: Config) {
    KnownDither(cfg.dither) && cfg.gamma > 0.0
  }

  /**
   * A pass stops with an error only where Python raises: when `float()` rejects a
   * numeric value, or when the pipeline refuses a frame (gamma at or below 0).
   */
  lemma StepAbort(s: HostState, opts: Options, now: real, sendTime: real,
                  gammaCurve: real -> Curve, parseFloat: string -> FloatValue)
    requires Workable(s.cfg) && Workable(opts.defaults)
    requires forall i | 0 <= i < |s.hostQueue| :: CommandOf(Lower(s.hostQueue[i].0)) !in {SetGamma, SetContrast, SetBrightness}
    ensures Step(s, opts, now, sendTime, gammaCurve, parseFloat).1 != Aborted
  {
    NoCrashWithoutNumbers(s.cfg, opts.defaults, s.hostQueue, parseFloat);
    HostKeepsWorkable(s.cfg, opts.defaults, s.hostQueue, parseFloat);
  }

  /**
   * `@gamma -inf` as the only queued entry: the pass sends no frame and ends with the error
   * (or, with too little video left, with the end of the stream).
   */
  lemma StepNegativeGamma(s: HostState, opts: Options, now: real, sendTime: real, key: string, value: string,
                          gammaCurve: real -> Curve, parseFloat: string -> FloatValue)
    requires s.hostQueue == [(key, value)] && CommandOf(Lower(key)) == SetGamma
    requires parseFloat(value) == Infinite(true)
    ensures var (t, outcome) := Step(s, opts, now, sendTime, gammaCurve, parseFloat);
      outcome != Running && t.framesSent == s.framesSent && t.cfg.gamma <= 0.0
  {
    NumericKeys(s.cfg, opts.defaults, value, parseFloat, gammaCurve);
    assert s.hostQueue[1..] == [];
    var r := ApplyEntry(s.cfg, opts.defaults, key, value, parseFloat);
    assert ApplyEntries(s.cfg, opts.defaults, s.hostQueue, parseFloat) == r;
    var s1 := s.(cfg := r.cfg, hostQueue := []);
    assert DrainHost(s, opts, parseFloat) == Some(s1);
    var s2 := ForwardDevice(s1);
    var k := if opts.realtime && opts.dropFrames then DropCount(s2.start, now, opts.fps, s2.framesIdx) else 0;
    var (s3, eof) := SkipFrames(s2, k);
    if !eof && |s3.video| >= RawFrameBytes {
      assert Process(s3.video[..RawFrameBytes], r.cfg, gammaCurve).Failure?;
    }
  }

  /** Without gamma entries, a queue keeps workable settings workable. */
  lemma {:induction false} HostKeepsWorkable(cfg: Config, defaults: Config, entries: seq<(string, string)>,
                                             parseFloat: string -> FloatValue)
    requires Workable(cfg) && Workable(defaults)
    requires forall i | 0 <= i < |entries| :: CommandOf(Lower(entries[i].0)) != SetGamma
    ensures var r := ApplyEntries(cfg, defaults, entries, parseFloat);
      r.Applied? ==> Workable(r.cfg)
    decreases |entries|
  {
    if entries != [] {
      var r := ApplyEntry(cfg, defaults, entries[0].0, entries[0].1, parseFloat);
      if r.Applied? {
        HostKeepsWorkable(r.cfg, defaults, entries[1..], parseFloat);
      }
    }
  }

  /** Nothing is skipped before the first frame has gone out. */
  lemma NoDropBeforeStart(now: real, fps: real, framesIdx: nat)
    ensures DropCount(None, now, fps, framesIdx) == 0
  {
  }

  /** Skipping leaves the index at least one frame short of where the clock says it should be, so the next frame is not ahead. */
  lemma DropBound(start: real, now: real, fps: real, framesIdx: nat)
    ensures var k := DropCount(Some(start), now, fps, framesIdx);
      k > 0 ==> framesIdx + k + 1 <= Trunc((now - start) * fps) && k <= Trunc(fps * 2.0)
  {
    var shouldHave := Trunc((now - start) * fps);
    var cap := Trunc(fps * 2.0);
    var k := DropCount(Some(start), now, fps, framesIdx);
    if shouldHave - framesIdx > 1 {
      assert k == 0 || k == Min(shouldHave - framesIdx - 1, cap);
    } else {
      assert k == 0;
    }
  }

  /** At 10 frames per second and three frames behind, two frames are skipped; far behind, the cap of 20 applies. */
  lemma DropExamples()
    ensures DropCount(Some(0.0), 1.0, 10.0, 7) == 2
    ensures DropCount(Some(0.0), 10.0, 10.0, 0) == 20
    ensures DropCount(Some(0.0), 1.0, 10.0, 9) == 0
  {
    assert Trunc((1.0 - 0.0) * 10.0) == 10;
    assert Trunc((10.0 - 0.0) * 10.0) == 100;
    assert Trunc(10.0 * 2.0) == 20;
  }

  // ---------------------------------------------------------------------------
  // The loop as the host runs it

  /** A stream of `len` bytes with between i and i + 1 frames left holds exactly i whole frames. */
  lemma FramesLeft(len: nat, i: nat)
    requires RawFrameBytes * i <= len < RawFrameBytes * i + RawFrameBytes
    ensures len / RawFrameBytes == i
  {
  }

  lemma FramesAtLeast(len: nat, k: nat)
    requires RawFrameBytes * k <= len
    ensures !(len / RawFrameBytes < k)
  {
  }

  class Streamer {
    const opts: Options
    const video: Pipe
    var cfg: Config
    var start: Option<real>
    var framesIdx: nat
    var framesSent: nat
    var framesDropped: nat
    var hostQueue: seq<(string, string)>
    var deviceQueue: seq<string>
    var wire: seq<WireLine>

    function State(): HostState
      reads this, video
    {
      HostState(cfg, start, framesIdx, framesSent, framesDropped, video.pending, hostQueue, deviceQueue, wire)
    }

    /**
     * Start-up: the settings start at their defaults, and the contrast and backlight
     * options, when given, go to the board before any frame.
     */
    constructor(opts: Options, video: Pipe, lcdContrast: int, backlight: string)
      ensures this.opts == opts && this.video == video
      ensures State() == HostState(opts.defaults, None, 0, 0, 0, video.pending, [], [],
        (if lcdContrast >= 0 then [CommandLine("!contrast " + Decimal(lcdContrast) + "\n")] else [])
        + (if backlight != [] then [CommandLine("!bl " + backlight + "\n")] else []))
    {
      this.opts := opts;
      this.video := video;
      cfg := opts.defaults;
      start := None;
      framesIdx, framesSent, framesDropped := 0, 0, 0;
      hostQueue, deviceQueue := [], [];
      var lines: seq<WireLine> := [];
      if lcdContrast >= 0 {
        lines := lines + [CommandLine("!contrast " + Decimal(lcdContrast) + "\n")];
      }
      if backlight != [] {
        lines := lines + [CommandLine("!bl " + backlight + "\n")];
      }
      wire := lines;
    }

    /** The reader thread's side: one typed line joins the host or the device queue. */
    method Submit(raw: string)
      modifies this
      ensures State() == old(State()).(
        hostQueue := old(hostQueue) + (if Classify(raw).ToHost? then [(Classify(raw).key, Classify(raw).value)] else []),
        deviceQueue := old(deviceQueue) + (if Classify(raw).ToDevice? then [Classify(raw).line] else []))
    {
      match Classify(raw) {
        case Skip =>
        case ToHost(k, v) =>
          hostQueue := hostQueue + [(k, v)];
        case ToDevice(l) =>
          deviceQueue := deviceQueue + [l];
      }
    }

    /** Drains the host queue entry by entry; false when an entry stopped the host. */
    method DrainHostQueue(parseFloat: string -> FloatValue) returns (ok: bool)
      modifies this
      ensures ok == DrainHost(old(State()), opts, parseFloat).Some?
      ensures ok ==> State() == DrainHost(old(State()), opts, parseFloat).value
    {
      ghost var q0 := hostQueue;
      ghost var cfg0 := cfg;
      while hostQueue != []
        invariant ApplyEntries(cfg0, opts.defaults, q0, parseFloat) == ApplyEntries(cfg, opts.defaults, hostQueue, parseFloat)
        invariant State() == old(State()).(cfg := cfg, hostQueue := hostQueue)
        decreases |hostQueue|
      {
        var entry := hostQueue[0];
        hostQueue := hostQueue[1..];
        match ApplyEntry(cfg, opts.defaults, entry.0, entry.1, parseFloat) {
          case Crashed =>
            return false;
          case Applied(next) =>
            cfg := next;
        }
      }
      ok := true;
    }

    /** Writes every queued device line to the link. */
    method ForwardDeviceQueue()
      modifies this
      ensures State() == ForwardDevice(old(State()))
    {
      ghost var w0 := wire;
      var i := 0;
      while i < |deviceQueue|
        invariant i <= |deviceQueue|
        invariant wire == w0 + CommandLines(deviceQueue[..i])
        invariant State() == old(State()).(wire := wire)
      {
        assert deviceQueue[..i + 1][..i] == deviceQueue[..i];
        wire := wire + [CommandLine(deviceQueue[i])];
        i := i + 1;
      }
      assert deviceQueue[..i] == deviceQueue;
      deviceQueue := [];
    }

    /** The catch-up loop: reads and discards up to `drop` frames; true when the stream ended on the way. */
    method SkipAhead(drop: nat) returns (eof: bool)
      modifies this, video
      ensures (State(), eof) == SkipFrames(old(State()), drop)
    {
      ghost var len := |video.pending|;
      eof := false;
      for i := 0 to drop
        invariant RawFrameBytes * i <= len
        invariant video.pending == old(video.pending)[RawFrameBytes * i..]
        invariant State() == old(State()).(framesIdx := old(framesIdx) + i, framesDropped := old(framesDropped) + i,
                                           video := video.pending)
      {
        var skipped := SkipOne();
        if !skipped {
          FramesLeft(len, i);
          return true;
        }
        assert old(video.pending)[RawFrameBytes * i..][RawFrameBytes..] == old(video.pending)[RawFrameBytes * (i + 1)..];
      }
      FramesAtLeast(len, drop);
    }

    /** One pass of the catch-up loop: read a frame and count it as dropped; false on a short read. */
    method SkipOne() returns (ok: bool)
      modifies this, video
      ensures ok <==> |old(video.pending)| >= RawFrameBytes
      ensures ok ==> State() == old(State()).(framesIdx := old(framesIdx) + 1, framesDropped := old(framesDropped) + 1,
                                              video := old(video.pending)[RawFrameBytes..])
      ensures !ok ==> State() == old(State()).(video := [])
    {
      var rawSkip := ReadExact(video, RawFrameBytes);
      if |rawSkip| != RawFrameBytes {
        return false;
      }
      framesIdx := framesIdx + 1;
      framesDropped := framesDropped + 1;
      ok := true;
    }

    /** Reads the next frame, processes it with the current settings and sends it. */
    method SendNext(sendTime: real, gammaCurve: real -> Curve) returns (outcome: Outcome)
      modifies this, video
      ensures (State(), outcome) == SendFrame(old(State()), opts, sendTime, gammaCurve)
    {
      var raw := ReadExact(video, RawFrameBytes);
      if |raw| != RawFrameBytes {
        return Stopped;
      }
      framesIdx := framesIdx + 1;
      ghost var s1 := State();
      assert s1 == old(State()).(video := old(video.pending)[RawFrameBytes..], framesIdx := old(framesIdx) + 1);
      var payload := DitherAndPack(raw, cfg, gammaCurve);
      if payload.Failure? {
        return Aborted;
      }
      outcome := Emit(payload.value, sendTime);
    }

    /** Sends a packed frame: the first one also takes the start time; then the frame limit is checked. */
    method Emit(payload: seq<Byte>, sendTime: real) returns (outcome: Outcome)
      modifies this
      ensures State() == old(State()).(start := if old(framesSent) == 0 then Some(sendTime) else old(start),
                                       wire := old(wire) + [FrameLine(payload)],
                                       framesSent := old(framesSent) + 1)
      ensures outcome == if opts.framesLimit > 0 && framesSent >= opts.framesLimit then Stopped else Running
    {
      if framesSent == 0 {
        start := Some(sendTime);
      }
      wire := wire + [FrameLine(payload)];
      framesSent := framesSent + 1;
      if opts.framesLimit > 0 && framesSent >= opts.framesLimit {
        return Stopped;
      }
      return Running;
    }

    /** One pass of the main loop. */
    method Tick(now: real, sendTime: real, gammaCurve: real -> Curve, parseFloat: string -> FloatValue)
      returns (outcome: Outcome)
      modifies this, video
      ensures outcome == Step(old(State()), opts, now, sendTime, gammaCurve, parseFloat).1
      ensures outcome != Aborted ==> State() == Step(old(State()), opts, now, sendTime, gammaCurve, parseFloat).0
    {
      var ok := DrainHostQueue(parseFloat);
      if !ok {
        return Aborted;
      }
      ForwardDeviceQueue();
      var drop := 0;
      if opts.realtime && opts.dropFrames {
        drop := DropCount(start, now, opts.fps, framesIdx);
      }
      var eof := SkipAhead(drop);
      if eof {
        return Stopped;
      }
      outcome := SendNext(sendTime, gammaCurve);
    }
  }
}
