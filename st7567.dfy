/**
 * The ST7567 LCD controller driver on the board. The controller is reached over
 * SPI with three extra lines: chip select (CS, active low), data/command (DC:
 * 0 = command, 1 = display data) and reset (RST, active low). The driver's whole
 * effect is the sequence of line changes, SPI writes and delays it issues; the
 * class keeps that sequence as `bus`.
 */
module ST7567Driver {
  import opened Bytes

  /** One thing the driver does to the hardware. */
  datatype BusEvent =
    | Cs(level: int)
    | Dc(level: int)
    | Rst(level: int)
    | SpiWrite(bytes: seq<Byte>)
    | SleepMs(ms: nat)

  /** `_cmd(b)`: one command byte (`b & 0xFF`) in its own chip-select window with DC low. */
  function CmdEvents(b: int): seq<BusEvent> {
    [Cs(0), Dc(0), SpiWrite([b % 256]), Cs(1)]
  }

  /** `_data(buf)`: display data in its own chip-select window with DC high. */
  function DataEvents(buf: seq<Byte>): seq<BusEvent> {
    [Cs(0), Dc(1), SpiWrite(buf), Cs(1)]
  }

  /** Several commands, one window each. */
  function CmdsEvents(bs: seq<int>): seq<BusEvent> {
    if bs == [] then [] else CmdsEvents(bs[..|bs| - 1]) + CmdEvents(bs[|bs| - 1])
  }

  /** `_hw_reset`: RST pulsed low for 50 ms, then 50 ms to settle. */
  function ResetEvents(): seq<BusEvent> {
    [Rst(0), SleepMs(50), Rst(1), SleepMs(50)]
  }

  /** The contrast command pair: 0x81 then the level clamped to 0..63. */
  function ContrastCommands(contrast: int): seq<int> {
    [0x81, Clamp(contrast, 0, 0x3F)]
  }

  function BoolBit(b: bool): int {
    if b then 1 else 0
  }

  /** The start-up command bytes, in order. */
  function InitCommands(contrast: int, invert: bool, regulationRatio: int, lineOffset: int,
                        comReverse: bool, segmentReverse: bool, bias17: bool): seq<int>
  {
    var reg := Clamp(regulationRatio, 0, 7);
    var line := Clamp(lineOffset, 0, 63);
    [0xE2, 0xAE, 0xA2 + BoolBit(bias17), 0xA0 + BoolBit(segmentReverse),
     0xC0 + (if comReverse then 0x08 else 0x00), 0x40 + line, 0x2F, 0x20 + reg]
    + ContrastCommands(contrast)
    + [if invert then 0xA7 else 0xA6, 0xA4, 0xAF]
  }

  /** The column address bytes for a column offset: high nibble after 0x10, low nibble after 0x00. */
  function ColumnHigh(col: int): Byte {
    0x10 + (col / 16) % 16
  }

  function ColumnLow(col: int): Byte {
    col % 16
  }

  /** The page address command `0xB0 | page`, for the page numbers a byte can hold. */
  function PageAddress(page: nat): Byte
    requires page < 256
  {
    ((0xB0 as bv8) | (page as bv8)) as int
  }

  /** The events for one page of `show`: DC low and the 3-byte address, then DC high and the page's bytes. */
  function PageEvents(frame: seq<Byte>, width: nat, col: int, page: nat): seq<BusEvent>
    requires page < 256 && (page + 1) * width <= |frame|
  {
    [Dc(0), SpiWrite([PageAddress(page), ColumnHigh(col), ColumnLow(col)]),
     Dc(1), SpiWrite(frame[page * width..(page + 1) * width])]
  }

  /** The events for pages 0 .. n-1. */
  function PagesEvents(frame: seq<Byte>, width: nat, col: int, n: nat): seq<BusEvent>
    requires n <= 256 && n * width <= |frame|
  {
    if n == 0 then []
    else
      assert (n - 1 + 1) * width == n * width;
      PagesEvents(frame, width, col, n - 1) + PageEvents(frame, width, col, n - 1)
  }

  /** A frame of `n` bytes with every pixel set or every pixel clear. */
  function Solid(n: nat, on: bool): (frame: seq<Byte>)
    ensures |frame| == n
  {
    seq(n, _ => if on then 0xFF else 0x00)
  }

  /** `show`: one chip-select window around every page. */
  function ShowEvents(frame: seq<Byte>, width: nat, col: int, pages: nat): seq<BusEvent>
    requires pages <= 256 && |frame| == width * pages
  {
    [Cs(0)] + PagesEvents(frame, width, col, pages) + [Cs(1)]
  }

  // ---------------------------------------------------------------------------
  // What the controller receives

  /** A write the controller accepts: the DC level while it was sent, and its bytes. */
  datatype Transfer = Transfer(dc: int, bytes: seq<Byte>)

  /** The controller's view of the lines: the writes accepted so far and the current CS and DC levels. */
  datatype Link = Link(transfers: seq<Transfer>, cs: int, dc: int)

  /** One event as the controller sees it: only writes made while CS is low are accepted. */
  function Apply(l: Link, e: BusEvent): Link {
    match e
    case Cs(v) => l.(cs := v)
    case Dc(v) => l.(dc := v)
    case SpiWrite(b) => if l.cs == 0 then l.(transfers := l.transfers + [Transfer(l.dc, b)]) else l
    case _ => l
  }

  function Replay(l: Link, events: seq<BusEvent>): Link
    decreases |events|
  {
    if events == [] then l else Replay(Apply(l, events[0]), events[1..])
  }

  /** Replaying two event runs one after the other is replaying the first, then the second from where it left. */
  lemma {:induction false} ReplayAppend(l: Link, a: seq<BusEvent>, b: seq<BusEvent>)
    ensures Replay(l, a + b) == Replay(Replay(l, a), b)
    decreases |a|
  {
    if a == [] {
      assert a + b == b;
    } else {
      assert (a + b)[1..] == a[1..] + b;
      ReplayAppend(Apply(l, a[0]), a[1..], b);
    }
  }

  /** A command reaches the controller as one single-byte transfer with DC low, and leaves CS high. */
  lemma CmdTransfer(l: Link, b: int)
    ensures Replay(l, CmdEvents(b)) == Link(l.transfers + [Transfer(0, [b % 256])], 1, 0)
  {
    var t := Transfer(0, [b % 256]);
    var l2 := l.(cs := 0, dc := 0);
    assert Replay(l2, [SpiWrite([b % 256]), Cs(1)]) == Replay(Link(l.transfers + [t], 0, 0), [Cs(1)]);
    assert Replay(l, CmdEvents(b)) == Replay(l2, [SpiWrite([b % 256]), Cs(1)]) by {
      assert CmdEvents(b)[1..] == [Dc(0), SpiWrite([b % 256]), Cs(1)];
      assert [Dc(0), SpiWrite([b % 256]), Cs(1)][1..] == [SpiWrite([b % 256]), Cs(1)];
    }
  }

  /** One page while CS is low: the address command, then the page's data. */
  lemma PageReplay(frame: seq<Byte>, width: nat, col: int, page: nat, l: Link)
    requires page < 256 && (page + 1) * width <= |frame| && l.cs == 0
    ensures Replay(l, PageEvents(frame, width, col, page))
         == Link(l.transfers + [Transfer(0, [PageAddress(page), ColumnHigh(col), ColumnLow(col)]),
                                Transfer(1, frame[page * width..(page + 1) * width])], 0, 1)
  {
    var cmd := [PageAddress(page), ColumnHigh(col), ColumnLow(col)];
    var data := frame[page * width..(page + 1) * width];
    var e := PageEvents(frame, width, col, page);
    var l0 := l.(dc := 0);
    var l1 := Link(l.transfers + [Transfer(0, cmd)], 0, 0);
    var l2 := l1.(dc := 1);
    var l3 := Link(l.transfers + [Transfer(0, cmd), Transfer(1, data)], 0, 1);
    assert e[1..] == [SpiWrite(cmd), Dc(1), SpiWrite(data)];
    assert e[1..][1..] == [Dc(1), SpiWrite(data)];
    assert e[1..][1..][1..] == [SpiWrite(data)];
    assert Replay(l2, [SpiWrite(data)]) == Replay(l3, []);
    assert Replay(l1, e[1..][1..]) == Replay(l2, e[1..][1..][1..]);
    assert Replay(l0, e[1..]) == Replay(l1, e[1..][1..]);
    assert Replay(l, e) == Replay(l0, e[1..]);
  }

  /** Every command of a run reaches the controller, in order, as its own command transfer. */
  lemma {:induction false} CmdsTransfers(l: Link, bs: seq<int>)
    ensures var r := Replay(l, CmdsEvents(bs));
      && |r.transfers| == |l.transfers| + |bs|
      && r.transfers[..|l.transfers|] == l.transfers
      && (forall i | 0 <= i < |bs| :: r.transfers[|l.transfers| + i] == Transfer(0, [bs[i] % 256]))
      && (bs != [] ==> r.cs == 1 && r.dc == 0)
    decreases |bs|
  {
    if bs != [] {
      var init := bs[..|bs| - 1];
      CmdsTransfers(l, init);
      ReplayAppend(l, CmdsEvents(init), CmdEvents(bs[|bs| - 1]));
      CmdTransfer(Replay(l, CmdsEvents(init)), bs[|bs| - 1]);
    }
  }

  /** What the controller should receive for pages 0 .. n-1: per page the address command, then the page's data. */
  function PagesTransfers(frame: seq<Byte>, width: nat, col: int, n: nat): seq<Transfer>
    requires n <= 256 && n * width <= |frame|
  {
    if n == 0 then []
    else
      assert (n - 1 + 1) * width == n * width;
      PagesTransfers(frame, width, col, n - 1)
      + [Transfer(0, [PageAddress(n - 1), ColumnHigh(col), ColumnLow(col)]),
         Transfer(1, frame[(n - 1) * width..n * width])]
  }

  /** While CS stays low, the page events deliver exactly the page transfers. */
  lemma {:induction false} PagesReplay(frame: seq<Byte>, width: nat, col: int, n: nat, l: Link)
    requires n <= 256 && n * width <= |frame| && l.cs == 0
    ensures Replay(l, PagesEvents(frame, width, col, n))
         == Link(l.transfers + PagesTransfers(frame, width, col, n), 0, if n == 0 then l.dc else 1)
    decreases n
  {
    if n > 0 {
      assert (n - 1 + 1) * width == n * width;
      var prev := PagesEvents(frame, width, col, n - 1);
      var page := PageEvents(frame, width, col, n - 1);
      PagesReplay(frame, width, col, n - 1, l);
      ReplayAppend(l, prev, page);
      PageReplay(frame, width, col, n - 1, Replay(l, prev));
    }
  }

  /** The display data among some transfers, joined in order. */
  function DataBytes(ts: seq<Transfer>): seq<Byte> {
    if ts == [] then []
    else DataBytes(ts[..|ts| - 1]) + (if ts[|ts| - 1].dc == 1 then ts[|ts| - 1].bytes else [])
  }

  lemma {:induction false} DataBytesAppend(a: seq<Transfer>, b: seq<Transfer>)
    ensures DataBytes(a + b) == DataBytes(a) + DataBytes(b)
    decreases |b|
  {
    if b == [] {
      assert a + b == a;
    } else {
      DataBytesAppend(a, b[..|b| - 1]);
      assert (a + b)[..|a + b| - 1] == a + b[..|b| - 1];
    }
  }

  /** The data sent for pages 0 .. n-1 is the first n pages of the frame. */
  lemma {:induction false} PagesData(frame: seq<Byte>, width: nat, col: int, n: nat)
    requires n <= 256 && n * width <= |frame|
    ensures DataBytes(PagesTransfers(frame, width, col, n)) == frame[..n * width]
    decreases n
  {
    if n > 0 {
      var lo, hi := (n - 1) * width, n * width;
      assert lo + width == hi <= |frame| by {
        assert (n - 1 + 1) * width == n * width;
      }
      var prev := PagesTransfers(frame, width, col, n - 1);
      var cmd := Transfer(0, [PageAddress(n - 1), ColumnHigh(col), ColumnLow(col)]);
      var data := Transfer(1, frame[lo..hi]);
      PagesData(frame, width, col, n - 1);
      var all := PagesTransfers(frame, width, col, n);
      assert all == prev + [cmd, data];
      assert all[..|all| - 1] == prev + [cmd];
      assert (prev + [cmd])[..|prev|] == prev;
      assert DataBytes(prev + [cmd]) == DataBytes(prev);
      assert frame[..lo] + frame[lo..hi] == frame[..hi];
    }
  }

  /**
   * `show` delivers, inside one chip-select window, the address command and then
   * the data of every page in turn, leaves CS high, and the display data it sends,
   * joined in order, is exactly the frame.
   */
  lemma ShowTransfers(frame: seq<Byte>, width: nat, col: int, pages: nat, l: Link)
    requires pages <= 256 && |frame| == width * pages
    ensures var r := Replay(l, ShowEvents(frame, width, col, pages));
      && r.transfers == l.transfers + PagesTransfers(frame, width, col, pages)
      && r.cs == 1
      && DataBytes(PagesTransfers(frame, width, col, pages)) == frame
  {
    var ev := PagesEvents(frame, width, col, pages);
    var l0 := Apply(l, Cs(0));
    assert ([Cs(0)] + ev + [Cs(1)])[1..] == ev + [Cs(1)];
    PagesReplay(frame, width, col, pages, l0);
    ReplayAppend(l0, ev, [Cs(1)]);
    PagesData(frame, width, col, pages);
    assert frame[..pages * width] == frame;
  }

  /** The start-up commands, clamps included, all reach the controller as commands in the order listed. */
  lemma InitTransfers(contrast: int, invert: bool, regulationRatio: int, lineOffset: int,
                      comReverse: bool, segmentReverse: bool, bias17: bool, l: Link)
    ensures var cmds := InitCommands(contrast, invert, regulationRatio, lineOffset, comReverse, segmentReverse, bias17);
      var r := Replay(l, CmdsEvents(cmds));
      && |cmds| == 13
      && |r.transfers| == |l.transfers| + 13 && r.cs == 1
      && (forall i | 0 <= i < 13 :: 0 <= cmds[i] < 256 && r.transfers[|l.transfers| + i] == Transfer(0, [cmds[i]]))
      && cmds[0] == 0xE2 && cmds[1] == 0xAE && cmds[6] == 0x2F && cmds[8] == 0x81 && cmds[12] == 0xAF
      && 0x20 <= cmds[7] <= 0x27 && 0x40 <= cmds[5] <= 0x7F && 0 <= cmds[9] <= 0x3F
      && (cmds[10] == 0xA7 <==> invert)
  {
    var cmds := InitCommands(contrast, invert, regulationRatio, lineOffset, comReverse, segmentReverse, bias17);
    CmdsTransfers(l, cmds);
  }

  // ---------------------------------------------------------------------------
  // The driver object

  class ST7567 {
    const width: nat
    const height: nat
    const pages: nat
    const colOffset: int
    /** The 3-byte page-address buffer; bytes 1 and 2 hold the column address, byte 0 is set per page. */
    const cmdBuf: array<Byte>
    var bus: seq<BusEvent>

    predicate Valid()
      reads cmdBuf
    {
      && pages == height / 8 && pages <= 256
      && cmdBuf.Length == 3
      && cmdBuf[1] == ColumnHigh(colOffset) && cmdBuf[2] == ColumnLow(colOffset)
    }

    /**
     * Sets CS and RST high and DC low, pulses reset, then sends the start-up commands.
     * Page numbers must fit the one-byte page command, so at most 2047 rows.
     */
    constructor(width: nat, height: nat, colOffset: int, invert: bool, contrast: int, regulationRatio: int,
                lineOffset: int, comReverse: bool, segmentReverse: bool, bias17: bool)
      requires height < 8 * 257
      ensures Valid() && fresh(cmdBuf)
      ensures this.width == width && this.height == height && this.colOffset == colOffset
      ensures bus == [Cs(1), Dc(0), Rst(1)] + ResetEvents()
        + CmdsEvents(InitCommands(contrast, invert, regulationRatio, lineOffset, comReverse, segmentReverse, bias17))
    {
      this.width := width;
      this.height := height;
      pages := height / 8;
      this.colOffset := colOffset;
      var buf := new Byte[3](_ => 0);
      buf[1] := ColumnHigh(colOffset);
      buf[2] := ColumnLow(colOffset);
      cmdBuf := buf;
      bus := [Cs(1), Dc(0), Rst(1)];
      new;
      HwReset();
      InitDisplay(contrast, invert, regulationRatio, lineOffset, comReverse, segmentReverse, bias17);
    }

    method HwReset()
      modifies this
      ensures bus == old(bus) + ResetEvents()
    {
      bus := bus + [Rst(0), SleepMs(50)];
      bus := bus + [Rst(1), SleepMs(50)];
    }

    method Cmd(b: int)
      modifies this
      ensures bus == old(bus) + CmdEvents(b)
    {
      bus := bus + [Cs(0)];
      bus := bus + [Dc(0)];
      bus := bus + [SpiWrite([b % 256])];
      bus := bus + [Cs(1)];
    }

    method Data(buf: seq<Byte>)
      modifies this
      ensures bus == old(bus) + DataEvents(buf)
    {
      bus := bus + [Cs(0)];
      bus := bus + [Dc(1)];
      bus := bus + [SpiWrite(buf)];
      bus := bus + [Cs(1)];
    }

    method Cmds(bs: seq<int>)
      modifies this
      ensures bus == old(bus) + CmdsEvents(bs)
    {
      for i := 0 to |bs|
        invariant bus == old(bus) + CmdsEvents(bs[..i])
      {
        assert bs[..i + 1][..i] == bs[..i];
        Cmd(bs[i]);
      }
      assert bs[..|bs|] == bs;
    }

    method InitDisplay(contrast: int, invert: bool, regulationRatio: int, lineOffset: int,
                       comReverse: bool, segmentReverse: bool, bias17: bool)
      modifies this
      ensures bus == old(bus)
        + CmdsEvents(InitCommands(contrast, invert, regulationRatio, lineOffset, comReverse, segmentReverse, bias17))
    {
      var reg := Clamp(regulationRatio, 0, 7);
      var line := Clamp(lineOffset, 0, 63);
      Cmds([0xE2, 0xAE, 0xA2 + BoolBit(bias17), 0xA0 + BoolBit(segmentReverse),
            0xC0 + (if comReverse then 0x08 else 0x00), 0x40 + line, 0x2F, 0x20 + reg]);
      SetContrast(contrast);
      Cmds([if invert then 0xA7 else 0xA6, 0xA4, 0xAF]);
      CmdsAppend(old(bus), [0xE2, 0xAE, 0xA2 + BoolBit(bias17), 0xA0 + BoolBit(segmentReverse),
                            0xC0 + (if comReverse then 0x08 else 0x00), 0x40 + line, 0x2F, 0x20 + reg],
                 ContrastCommands(contrast), [if invert then 0xA7 else 0xA6, 0xA4, 0xAF]);
    }

    method SetContrast(contrast: int)
      modifies this
      ensures bus == old(bus) + CmdsEvents(ContrastCommands(contrast))
    {
      var v := Clamp(contrast, 0, 0x3F);
      Cmd(0x81);
      Cmd(v);
      assert CmdsEvents([0x81, v]) == CmdsEvents([0x81]) + CmdEvents(v);
    }

    method SetRegulationRatio(ratio: int)
      modifies this
      ensures bus == old(bus) + CmdEvents(0x20 + Clamp(ratio, 0, 7))
    {
      var r := Clamp(ratio, 0, 7);
      Cmd(0x20 + r);
    }

    method SetBias(bias17: bool)
      modifies this
      ensures bus == old(bus) + CmdEvents(0xA2 + BoolBit(bias17))
    {
      Cmd(0xA2 + BoolBit(bias17));
    }

    method SetInvert(invert: bool)
      modifies this
      ensures bus == old(bus) + CmdEvents(if invert then 0xA7 else 0xA6)
    {
      Cmd(if invert then 0xA7 else 0xA6);
    }

    /** Sends a frame of `width * pages` bytes, page by page; any other length is refused and nothing is sent. */
    method Show(frame: seq<Byte>) returns (ok: bool)
      requires Valid()
      modifies this, cmdBuf
      ensures Valid()
      ensures ok <==> |frame| == width * pages
      ensures ok ==> bus == old(bus) + ShowEvents(frame, width, colOffset, pages)
      ensures !ok ==> bus == old(bus)
    {
      if |frame| != width * pages {
        return false;
      }
      bus := bus + [Cs(0)];
      for page := 0 to pages
        invariant Valid()
        invariant bus == old(bus) + [Cs(0)] + PagesEvents(frame, width, colOffset, page)
      {
        SendPage(frame, page);
      }
      bus := bus + [Cs(1)];
      ok := true;
    }

    /** One page of `show`: the page number goes into the command buffer, then address and data are written. */
    method SendPage(frame: seq<Byte>, page: nat)
      requires Valid() && page < pages && |frame| == width * pages
      modifies this, cmdBuf
      ensures Valid()
      ensures (page + 1) * width <= |frame|
      ensures bus == old(bus) + PageEvents(frame, width, colOffset, page)
    {
      cmdBuf[0] := PageAddress(page);
      bus := bus + [Dc(0)];
      bus := bus + [SpiWrite(cmdBuf[..])];
      assert cmdBuf[..] == [PageAddress(page), ColumnHigh(colOffset), ColumnLow(colOffset)];
      MulMono(page + 1, pages, width);
      var start := page * width;
      bus := bus + [Dc(1)];
      bus := bus + [SpiWrite(frame[start..start + width])];
    }

    /** `fill`: every pixel set (0xFF) or clear (0x00). */
    method Fill(on: bool)
      requires Valid()
      modifies this, cmdBuf
      ensures Valid()
      ensures bus == old(bus) + ShowEvents(Solid(width * pages, on), width, colOffset, pages)
    {
      var ok := Show(Solid(width * pages, on));
    }
  }

  lemma MulMono(a: nat, b: nat, c: nat)
    requires a <= b
    ensures a * c <= b * c
  {
  }

  /** Two command runs back to back are one run. */
  lemma CmdsAppend(start: seq<BusEvent>, a: seq<int>, b: seq<int>, c: seq<int>)
    ensures start + CmdsEvents(a) + CmdsEvents(b) + CmdsEvents(c) == start + CmdsEvents(a + b + c)
  {
    CmdsConcat(a, b);
    CmdsConcat(a + b, c);
  }

  lemma {:induction false} CmdsConcat(a: seq<int>, b: seq<int>)
    ensures CmdsEvents(a + b) == CmdsEvents(a) + CmdsEvents(b)
    decreases |b|
  {
    if b == [] {
      assert a + b == a;
    } else {
      var b' := b[..|b| - 1];
      CmdsConcat(a, b');
      assert (a + b)[..|a + b| - 1] == a + b';
    }
  }
}
