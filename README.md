# bee_movie in Dafny

This project models the core of bee_movie. The system plays a video on a 128x64 monochrome ST7567 LCD that a
Raspberry Pi Pico drives, fed over USB serial from a host computer.

- **Host side** (`stream_bee_movie.py`):
  - reads raw 8-bit grayscale frames from the decoder's pipe;
  - turns each frame into a 1024-byte page-major 1-bit frame (rotation, brightness/contrast, gamma, one of three
    dithers, inversion, packing);
  - writes it to the serial link as one line;
  - between frames, applies typed `@` host commands to the processing settings and forwards typed device commands;
  - optionally skips frames to keep up with the wall clock.
- **Device side** (`pico/main.py`):
  - a line handler that reads `!` commands (contrast, ratio, bias, invert, backlight, LED pins, probe, target fps,
    quit) and base64 frames;
  - a button scan with edge detection;
  - a once-a-second frame-rate health check on two LEDs.
- **Display driver** (`pico/st7567.py`): it sequences the ST7567 commands and page writes over SPI with CS/DC/RST.

Modules, leaf first:

- `Wrappers`: Option and Result.
- `Bytes`: bits of a byte.
- `Text`: ASCII `strip`, `split`, `lower`, `int()`; whitespace is that of `str` (host) or of `bytes` (device).
- `Packing`: frame geometry and `np.packbits` layout.
- `Dithering`: Bayer, Floyd-Steinberg, Atkinson.
- `ImageProcessor`: `dither_and_pack`.
- `ControlChannel`: stdin routing and host-queue application.
- `Streaming`: `read_exact`, the drop-frame arithmetic and the main loop as the class `Streamer`.
- `ST7567Driver`: the driver class, with every pin change and SPI write kept in an append-only `bus` log.
- `DeviceFirmware`: `handle_line` as a function returning the new settings and the hardware actions, buttons,
  health, and the `Firmware` class that performs them.

Behaviour of the code worth noting:

- A typed line without `@` is not ignored: it is forwarded to the board, with `!` prepended when missing.
- A host `@gamma`, `@contrast` or `@brightness` value that `float()` rejects is not reported and ignored. The
  exception leaves the main loop, and the host stops (`Crashed` / `Aborted`).
- `float()` accepts `inf` and `nan`. `@brightness inf` then stops the host in `int()`, while `@gamma inf` is
  accepted. `@gamma -inf` is accepted too, and the next frame stops the host, since gamma is then below 0.
- The host strips and splits `str`, whose whitespace includes the separators 0x1C..0x1F; the device strips and
  splits `bytes`, whose whitespace does not.
- Gamma at or below 0 is refused per frame inside `dither_and_pack`, and only when gamma is not 1. It is not
  validated when it is set.
- On the device, `!bl 101` gives duty 101, not 65535. Only 0..100 is a percentage; other integers are raw duties,
  clamped to 0..65535.
- The health check compares against `max(1, target - 3)`, so a target of 3 or less still needs one frame.

## Model

| member | source | states |
|---|---|---|
| Bytes.FromBits | bee_movie/stream_bee_movie.py:188-189 | the little-endian value of a bit list fits in its width |
| Bytes.BitOfFromBits | bee_movie/stream_bee_movie.py:188-189 | bit i of the packed byte is the i-th input bit (bitorder little) |
| Bytes.FromToBits | bee_movie/stream_bee_movie.py:188-189 | every byte is the packing of its own 8 bits |
| Bytes.FromBitsNegate | bee_movie/stream_bee_movie.py:185-189 | complementing every bit gives 2^n - 1 minus the value |
| Bytes.FromBitsAllClear | bee_movie/stream_bee_movie.py:188-189 | all bits clear pack to 0 |
| Bytes.FromBitsAllSet | bee_movie/stream_bee_movie.py:188-189 | all bits set pack to 2^n - 1 |
| Text.TrimLeftFacts | bee_movie/stream_bee_movie.py:334 | the left trim is a suffix, starts with non-space, and what it drops is whitespace |
| Text.TrimRightFacts | bee_movie/stream_bee_movie.py:334 | the right trim is a prefix, ends with non-space, and what it drops is whitespace |
| Text.StripFacts | bee_movie/stream_bee_movie.py:334-336 | `strip()` is empty exactly for all-whitespace lines; otherwise no whitespace at either end |
| Text.StripUnpadded | bee_movie/pico/main.py:89 | a line without surrounding whitespace is its own strip |
| Text.WordFacts | bee_movie/stream_bee_movie.py:340 | a word is a whitespace-free prefix, ended by whitespace or the end |
| Text.SplitFacts | bee_movie/stream_bee_movie.py:340 | `split()` parts are non-empty and whitespace-free; there are none exactly for blank input |
| Text.SplitToken | bee_movie/pico/main.py:94 | a single token splits to itself |
| Text.SplitWord | bee_movie/pico/main.py:94 | a word followed by whitespace splits off first |
| Text.LowerFacts | bee_movie/stream_bee_movie.py:343 | `lower()` keeps the length, leaves no upper-case letter and changes nothing else |
| Text.LowerIdempotent | bee_movie/stream_bee_movie.py:366 | lower-casing twice is lower-casing once (the host lowers keys twice) |
| Text.ParseInt | bee_movie/pico/main.py:106 | `int()` succeeds exactly on an optionally signed run of ASCII digits, and the sign decides the result's sign |
| Text.Trunc | bee_movie/stream_bee_movie.py:392 | `int()` of a float truncates toward zero |
| Text.ParseDecimal | bee_movie/pico/main.py:106 | `int(str(n))` and `int("-" + str(n))` give back n and -n |
| Text.DecimalValue | bee_movie/stream_bee_movie.py:298 | the decimal rendering's digits denote n |
| Packing.Pack | bee_movie/stream_bee_movie.py:188-189 | the packed frame is always 1024 bytes |
| Packing.PackLayout | bee_movie/stream_bee_movie.py:188-189 | bit i of byte p*128+x is pixel (8p+i, x) |
| Packing.UnpackPack | bee_movie/stream_bee_movie.py:188-189 | unpacking the packed mask gives back the mask |
| Packing.PackUnpack | bee_movie/stream_bee_movie.py:188-189 | packing the unpacked bytes gives back the bytes |
| Packing.ColumnOfUnpack | bee_movie/stream_bee_movie.py:188-189 | a column of an unpacked buffer is the bits of its byte |
| Packing.RowIndex | bee_movie/stream_bee_movie.py:15-18 | row-major index y*128+x is in range and gives back y and x |
| Packing.Invert | bee_movie/stream_bee_movie.py:185-186 | `~on` flips every pixel |
| Packing.PackInvert | bee_movie/stream_bee_movie.py:185-189 | with inversion every packed byte is 255 minus the plain one |
| Packing.PackUniform | bee_movie/stream_bee_movie.py:188-189 | an all-clear mask packs to 0x00s and an all-set mask to 0xFFs |
| Dithering.Threshold | bee_movie/stream_bee_movie.py:77-94 | the tiled Bayer threshold `bayer8[y%8][x%8]*4+2` lies in 2..254 |
| Dithering.BayerUniform | bee_movie/stream_bee_movie.py:132-133 | with the strict `<`, a 255 frame sets no pixel and a 0 frame sets every pixel |
| Dithering.Quantize | bee_movie/stream_bee_movie.py:144-146 | a visited cell becomes 0 or 255, and 0 exactly below 128 |
| Dithering.ScanX | bee_movie/stream_bee_movie.py:136-143 | the serpentine column of the j-th visit stays within the row |
| Dithering.RankInjective | bee_movie/stream_bee_movie.py:136-143 | the scan order visits each pixel once |
| Dithering.FsPixelKeeps | bee_movie/stream_bee_movie.py:148-158 | a Floyd-Steinberg step writes no cell its scan already passed |
| Dithering.AtkinsonPixelKeeps | bee_movie/stream_bee_movie.py:167-180 | an Atkinson step writes no cell its scan already passed |
| Dithering.VisitFrame | bee_movie/stream_bee_movie.py:144-147 | a visit quantizes its own cell and leaves earlier cells alone |
| Dithering.DiffuseQuantized | bee_movie/stream_bee_movie.py:135-181 | after any prefix of the scan every visited cell holds 0 or 255 |
| Dithering.QuantizedStep | bee_movie/stream_bee_movie.py:135-181 | one more visit extends the quantized prefix by one cell |
| Dithering.DiffusionBinary | bee_movie/stream_bee_movie.py:135-181 | after the scan every cell is 0 or 255, and a pixel is on iff its cell ended at 0 |
| Dithering.QuantizedCell | bee_movie/stream_bee_movie.py:135-181 | a fully quantized scan quantizes every cell |
| Dithering.VisitBinaryCell | bee_movie/stream_bee_movie.py:144-158 | a cell already at 0 or 255 carries no error, so visiting it changes nothing |
| Dithering.FsBinaryCell | bee_movie/stream_bee_movie.py:144-158 | the same for a Floyd-Steinberg step |
| Dithering.AtkinsonBinaryCell | bee_movie/stream_bee_movie.py:164-180 | the same for an Atkinson step |
| Dithering.DiffuseUniform | bee_movie/stream_bee_movie.py:135-181 | a uniform black or white grid is unchanged by either scan |
| Dithering.DiffusionMaskUniform | bee_movie/stream_bee_movie.py:135-181 | uniform white dithers to all clear, uniform black to all set |
| Dithering.AddIfInPlace | bee_movie/stream_bee_movie.py:150-151 | one bounds-checked `arr[i] += d` |
| Dithering.QuantizeInPlace | bee_movie/stream_bee_movie.py:144-147 | the cell is quantized in place and the error `old - new` returned |
| Dithering.FsVisitInPlace | bee_movie/stream_bee_movie.py:144-158 | the inner Floyd-Steinberg body updates the array as the step function says |
| Dithering.FsSpreadInPlace | bee_movie/stream_bee_movie.py:149-158 | the 7/5/3/1 sixteenths, floored, go to the in-bounds neighbours in scan direction |
| Dithering.AtkinsonVisitInPlace | bee_movie/stream_bee_movie.py:164-180 | the inner Atkinson body gives `err // 8` to each in-bounds neighbour of the six |
| Dithering.FloydSteinbergInPlace | bee_movie/stream_bee_movie.py:135-159 | the serpentine loop leaves the array as the full Floyd-Steinberg scan |
| Dithering.AtkinsonInPlace | bee_movie/stream_bee_movie.py:160-181 | the raster loop leaves the array as the full Atkinson scan |
| ImageProcessor.Rotate180 | bee_movie/stream_bee_movie.py:111-112 | rotation keeps the frame size |
| ImageProcessor.Rotate180Pixel | bee_movie/stream_bee_movie.py:111-112 | pixel (y, x) comes from (63-y, 127-x) |
| ImageProcessor.Rotate180Twice | bee_movie/stream_bee_movie.py:111-112 | rotating twice restores the frame |
| ImageProcessor.ClipToByte | bee_movie/stream_bee_movie.py:120 | clip to 0..255 then truncate to a byte |
| ImageProcessor.Tone | bee_movie/stream_bee_movie.py:114-120 | the brightness/contrast stage keeps the size |
| ImageProcessor.ToneNeutral | bee_movie/stream_bee_movie.py:114-120 | brightness 0 and contrast 1 keep every level |
| ImageProcessor.ToneShift | bee_movie/stream_bee_movie.py:118-120 | with contrast 1 the stage is a clamped shift by brightness |
| ImageProcessor.ClipMonotone | bee_movie/stream_bee_movie.py:120 | clipping keeps order |
| ImageProcessor.ToneMonotone | bee_movie/stream_bee_movie.py:114-120 | a non-negative contrast never swaps two levels |
| ImageProcessor.ApplyCurve | bee_movie/stream_bee_movie.py:122-128 | the gamma lookup keeps the size |
| ImageProcessor.Gamma | bee_movie/stream_bee_movie.py:122-128 | gamma fails exactly when it is not 1 and at most 0 |
| ImageProcessor.DitherMask | bee_movie/stream_bee_movie.py:130-183 | a mask exists exactly for bayer, fs and atkinson |
| ImageProcessor.Prepare | bee_movie/stream_bee_movie.py:110-128 | rotation, tone and gamma keep the frame size |
| ImageProcessor.Process | bee_movie/stream_bee_movie.py:97-189 | success is exactly a right-sized frame, a valid gamma and a known dither; the result is 1024 bytes; the size error is exactly a wrong-sized input |
| ImageProcessor.ProcessInvert | bee_movie/stream_bee_movie.py:185-189 | flipping invert complements every output byte |
| ImageProcessor.RotateUniform | bee_movie/stream_bee_movie.py:111-112 | a uniform frame is rotation-invariant |
| ImageProcessor.PrepareUniform | bee_movie/stream_bee_movie.py:110-128 | neutral tone and gamma leave a uniform frame unchanged |
| ImageProcessor.DitherUniform | bee_movie/stream_bee_movie.py:130-181 | every dither makes the uniform mask of a white or black frame |
| ImageProcessor.ProcessUniform | bee_movie/stream_bee_movie.py:97-189 | with identity settings, white packs to all 0x00 and black to all 0xFF, for every dither (swapped with invert) |
| ImageProcessor.DitherAndPack | bee_movie/stream_bee_movie.py:97-189 | the in-place pipeline returns exactly the pipeline function's result, errors included |
| ImageProcessor.PrepareFrame | bee_movie/stream_bee_movie.py:110-128 | the optional stages run as the pipeline function says, refusing gamma at or below 0 |
| ImageProcessor.DiffuseFrame | bee_movie/stream_bee_movie.py:134-181 | diffusion on a working array, thresholded at 128, gives the specified mask |
| ControlChannel.ClassifyShape | bee_movie/stream_bee_movie.py:329-351 | blank lines and bare `@` are dropped; host keys are non-empty lower-case words; device lines start with `!` and end with a newline |
| ControlChannel.ClassifyDevice | bee_movie/stream_bee_movie.py:347-349 | a device line is the stripped line, `!` added if missing, newline added |
| ControlChannel.ClassifyHost | bee_movie/stream_bee_movie.py:338-345 | `@Key value` queues the lower-cased key and the first value; `@Key` queues an empty value |
| ControlChannel.ClassifySeparator | bee_movie/stream_bee_movie.py:334-345 | `str` whitespace includes 0x1C..0x1F, so `@key<US>value` queues key and value, where a `bytes` split keeps one word |
| ControlChannel.BeforeEof | bee_movie/stream_bee_movie.py:330-333 | the lines read are the prefix before the first empty read |
| ControlChannel.DeviceLinesWellFormed | bee_movie/stream_bee_movie.py:329-351 | each line queues at most one entry, and every device entry is `!`...newline |
| ControlChannel.DeviceShape | bee_movie/stream_bee_movie.py:347-349 | a device entry starts with `!` and ends with a newline |
| ControlChannel.ClassifiedStep | bee_movie/stream_bee_movie.py:329-351 | one more line extends the queues by what it routes to |
| ControlChannel.ReadCommands | bee_movie/stream_bee_movie.py:329-351 | the reader loop fills both queues in reading order with the lines before end of input |
| ControlChannel.BeforeEofAt | bee_movie/stream_bee_movie.py:330-333 | the lines read stop at the first empty one |
| ControlChannel.KeyAliases | bee_movie/stream_bee_movie.py:366-408 | keys match in any case, and the aliases name the same commands |
| ControlChannel.ResetRestores | bee_movie/stream_bee_movie.py:378-382 | `reset` restores the defaults snapshot |
| ControlChannel.CommandOfKnown | bee_movie/stream_bee_movie.py:368-413 | exactly the sixteen listed keys name a command |
| ControlChannel.UnknownKeyKeeps | bee_movie/stream_bee_movie.py:410-413 | an unknown key changes nothing and does not stop the host |
| ControlChannel.DitherValidated | bee_movie/stream_bee_movie.py:394-401 | a dither outside bayer/fs/atkinson leaves the settings unchanged; a good one sets only the dither |
| ControlChannel.FlagValues | bee_movie/stream_bee_movie.py:402-408 | invert and rotate180 become false iff the value is 0, false, off or empty (after strip and lower), and nothing else changes |
| ControlChannel.FlagExamples | bee_movie/stream_bee_movie.py:402-408 | " OFF " and "False" switch off, "yes" switches on, "" switches off |
| ControlChannel.NumericKeys | bee_movie/stream_bee_movie.py:385-393 | a value `float()` rejects stops the host; a finite one sets only its field (brightness truncated); an infinity or NaN stops the host for brightness, whose `int()` raises; `-inf` gamma leaves a gamma with which every frame is refused |
| Streaming.StepNegativeGamma | bee_movie/stream_bee_movie.py:385-387 | after a queued `@gamma -inf` the pass sends no frame and does not keep running: the stored gamma is at or below 0 |
| ControlChannel.ApplyEntriesAppend | bee_movie/stream_bee_movie.py:362-420 | the queue applies entry after entry |
| ControlChannel.ResetLast | bee_movie/stream_bee_movie.py:362-420 | a queue ending in reset leaves the defaults unless an earlier entry stopped the host |
| ControlChannel.NoCrashWithoutNumbers | bee_movie/stream_bee_movie.py:362-420 | only gamma, contrast and brightness entries can stop the host |
| Streaming.Pipe.Read | bee_movie/stream_bee_movie.py:69 | one read returns 1..k of the pending bytes, and nothing only at the end |
| Streaming.ReadExact | bee_movie/stream_bee_movie.py:64-74 | the result is the next min(n, available) bytes of the stream, and they are consumed |
| Streaming.DropCount | bee_movie/stream_bee_movie.py:429-437 | nothing is dropped before a start time exists |
| Streaming.CommandLines | bee_movie/stream_bee_movie.py:422-427 | each queued device line becomes one link line, in order |
| Streaming.SkipFrames | bee_movie/stream_bee_movie.py:438-447 | without end of stream, k skips add k to frames_idx and frames_dropped |
| Streaming.StepConsistent | bee_movie/stream_bee_movie.py:449-490 | a pass that goes on keeps frames_idx = sent + dropped, sends one frame and stays below the limit |
| Streaming.StepStart | bee_movie/stream_bee_movie.py:466-472 | only the first frame sent sets the start time |
| Streaming.StepWire | bee_movie/stream_bee_movie.py:422-475 | the link only grows; a pass that goes on appends the device lines in order, then one 1024-byte frame |
| Streaming.SendFrameWire | bee_movie/stream_bee_movie.py:449-475 | sending appends at most one line, and exactly one packed frame when the loop goes on |
| Streaming.StepFrame | bee_movie/stream_bee_movie.py:438-475 | the frame sent is the processed next raw frame after the skipped ones, and the rest of the stream is left |
| Streaming.StepAbort | bee_movie/stream_bee_movie.py:362-464 | with workable settings and no numeric host entry, a pass never stops with an error |
| Streaming.HostKeepsWorkable | bee_movie/stream_bee_movie.py:362-420 | without gamma entries the queue keeps a known dither and a positive gamma |
| Streaming.NoDropBeforeStart | bee_movie/stream_bee_movie.py:430-435 | no drop while start is None |
| Streaming.DropBound | bee_movie/stream_bee_movie.py:434-437 | after dropping k frames the index is at least one short of should_have, and k is at most int(fps*2) |
| Streaming.DropExamples | bee_movie/stream_bee_movie.py:434-437 | 3 frames behind at 10 fps skips exactly 2; far behind, the cap of 20 applies |
| Streaming.FramesLeft | bee_movie/stream_bee_movie.py:440-442 | a stream with between i and i+1 frames holds i whole frames |
| Streaming.FramesAtLeast | bee_movie/stream_bee_movie.py:438-445 | a stream with k frames can skip k |
| Streaming.Streamer.constructor | bee_movie/stream_bee_movie.py:297-321 | settings start at the defaults; the contrast and backlight options go to the link first |
| Streaming.Streamer.Submit | bee_movie/stream_bee_movie.py:329-349 | a typed line joins the host or device queue as routed |
| Streaming.Streamer.DrainHostQueue | bee_movie/stream_bee_movie.py:362-420 | draining applies the entries in order, or reports the stop |
| Streaming.Streamer.ForwardDeviceQueue | bee_movie/stream_bee_movie.py:422-427 | every queued device line is written in order and the queue is emptied |
| Streaming.Streamer.SkipAhead | bee_movie/stream_bee_movie.py:438-447 | the catch-up loop is the skip function, end of stream included |
| Streaming.Streamer.SkipOne | bee_movie/stream_bee_movie.py:440-445 | a skip reads a full frame and counts it, or reports end of stream |
| Streaming.Streamer.SendNext | bee_movie/stream_bee_movie.py:449-490 | reading, processing and sending is the send function |
| Streaming.Streamer.Emit | bee_movie/stream_bee_movie.py:466-490 | the first frame takes the start time; the frame is written and counted; the limit stops the loop |
| Streaming.Streamer.Tick | bee_movie/stream_bee_movie.py:361-490 | one loop pass returns the specified outcome and, unless aborted, the specified state |
| Bytes.Clamp | bee_movie/pico/st7567.py:81-82 | the result lies in the range and equals an in-range input |
| ST7567Driver.ReplayAppend | bee_movie/pico/st7567.py:57-67 | the controller's view of two event runs composes |
| ST7567Driver.CmdTransfer | bee_movie/pico/st7567.py:57-61 | `_cmd` delivers one byte `b & 0xFF` with DC low and leaves CS high |
| ST7567Driver.PageReplay | bee_movie/pico/st7567.py:126-132 | one page delivers the 3-byte address command, then `width` data bytes |
| ST7567Driver.CmdsTransfers | bee_movie/pico/st7567.py:83-94 | each command of a run reaches the controller in order as its own command transfer |
| ST7567Driver.PagesReplay | bee_movie/pico/st7567.py:125-132 | with CS held low the pages deliver exactly the page transfers |
| ST7567Driver.DataBytesAppend | bee_movie/pico/st7567.py:132 | the data of two transfer runs is joined in order |
| ST7567Driver.PagesData | bee_movie/pico/st7567.py:125-132 | the data of the first n pages is the first n*width bytes of the frame |
| ST7567Driver.ShowTransfers | bee_movie/pico/st7567.py:115-133 | one CS window around all pages, CS left high, and the data written, joined, is exactly the frame |
| ST7567Driver.InitTransfers | bee_movie/pico/st7567.py:81-94 | 13 init commands in the listed order, with the ratio, start line and contrast clamped and invert choosing 0xA7 |
| ST7567Driver.Solid | bee_movie/pico/st7567.py:111-113 | a fill frame has the requested size |
| ST7567Driver.ST7567.constructor | bee_movie/pico/st7567.py:5-49 | CS=1, DC=0, RST=1, then the reset pulse, then the init commands; the column bytes are stored |
| ST7567Driver.ST7567.HwReset | bee_movie/pico/st7567.py:51-55 | RST low 50 ms, then high 50 ms |
| ST7567Driver.ST7567.Cmd | bee_movie/pico/st7567.py:57-61 | CS low, DC low, one byte, CS high |
| ST7567Driver.ST7567.Data | bee_movie/pico/st7567.py:63-67 | CS low, DC high, the buffer, CS high |
| ST7567Driver.ST7567.Cmds | bee_movie/pico/st7567.py:83-94 | a run of commands, each in its own window |
| ST7567Driver.ST7567.InitDisplay | bee_movie/pico/st7567.py:69-94 | the init sequence in order |
| ST7567Driver.ST7567.SetContrast | bee_movie/pico/st7567.py:96-99 | 0x81 then the contrast clamped to 0..63 |
| ST7567Driver.ST7567.SetRegulationRatio | bee_movie/pico/st7567.py:101-103 | 0x20 plus the ratio clamped to 0..7 |
| ST7567Driver.ST7567.SetBias | bee_movie/pico/st7567.py:105-106 | 0xA3 for 1/7 bias, 0xA2 otherwise |
| ST7567Driver.ST7567.SetInvert | bee_movie/pico/st7567.py:108-109 | 0xA7 inverted, 0xA6 normal |
| ST7567Driver.ST7567.Show | bee_movie/pico/st7567.py:115-133 | a wrong-sized frame is refused with nothing sent; otherwise one CS window around all pages |
| ST7567Driver.ST7567.SendPage | bee_movie/pico/st7567.py:126-132 | the page number goes into byte 0 of the command buffer, then DC low with the 3 bytes, DC high with the page data |
| ST7567Driver.ST7567.Fill | bee_movie/pico/st7567.py:111-113 | shows width*pages bytes of 0xFF or 0x00 |
| ST7567Driver.CmdsAppend | bee_movie/pico/st7567.py:83-94 | consecutive command runs form one run |
| ST7567Driver.CmdsConcat | bee_movie/pico/st7567.py:83-94 | the events of joined command lists are the joined events |
| DeviceFirmware.SetBacklight | bee_movie/pico/main.py:57-63 | PWM: one duty clamped to 0..65535 (in-range values kept); pin: on exactly for a positive value |
| DeviceFirmware.LedLevel | bee_movie/pico/main.py:66-69 | the pin level is 1 iff on differs from active_low |
| DeviceFirmware.LedSet | bee_movie/pico/main.py:66-69 | nothing for a missing LED, else one write of that level |
| DeviceFirmware.MkLed | bee_movie/pico/main.py:72-81 | a negative pin gives no LED; otherwise the pin, or a failure where the pin cannot be built |
| DeviceFirmware.BlinkLevels | bee_movie/pico/main.py:158-160 | the confirmation blink lights the LED, then darkens it, whatever the polarity |
| DeviceFirmware.BacklightValue | bee_movie/pico/main.py:137-151 | a parsed backlight value always lies in 0..65535 |
| DeviceFirmware.BacklightPercent | bee_movie/pico/main.py:143-146 | 0..100 is a percentage `v*65535//100` ("50" gives 32767, "100" gives 65535); larger integers are raw duties capped at 65535 ("101" gives 101) |
| DeviceFirmware.BacklightNegative | bee_movie/pico/main.py:143-146 | a negative integer gives duty 0 |
| DeviceFirmware.DecimalDigits | bee_movie/pico/main.py:140 | an integer argument takes the integer path |
| DeviceFirmware.IgnoredLines | bee_movie/pico/main.py:85-96 | blank lines and a bare `!` do nothing |
| DeviceFirmware.FrameLines | bee_movie/pico/main.py:212-218 | a frame is exactly a non-command line decoding to 1024 bytes, and it changes nothing |
| DeviceFirmware.CommandNeverFrame | bee_movie/pico/main.py:101-210 | a command never yields a frame, and it exits iff the word is quit or exit in any case |
| DeviceFirmware.HandleLineInRange | bee_movie/pico/main.py:84-218 | every line keeps contrast, backlight and ratio in range |
| DeviceFirmware.RunCommandInRange | bee_movie/pico/main.py:101-210 | every command keeps the settings in range |
| DeviceFirmware.LedsKeepState | bee_movie/pico/main.py:153-201 | the LED and probe commands change no panel setting, and probe changes nothing |
| DeviceFirmware.QuitLine | bee_movie/pico/main.py:101-102 | quit and exit stop the firmware and change nothing |
| DeviceFirmware.CommandWithoutEffect | bee_movie/pico/main.py:104-210 | an unknown word, a missing argument or an unparsable one leaves everything unchanged and does nothing |
| DeviceFirmware.CommandWords | bee_movie/pico/main.py:89-99 | `!WORD ARG` splits into the word and its argument |
| DeviceFirmware.ContrastLine | bee_movie/pico/main.py:104-111 | `!contrast n` / `!c n` set the contrast to min(n, 63), send it, and change nothing else |
| DeviceFirmware.NumberCommandLine | bee_movie/pico/main.py:88-99 | `!WORD n` reaches the command handler as exactly the two words, and the digits parse back to n |
| DeviceFirmware.RatioLine | bee_movie/pico/main.py:113-119 | `!reg n` / `!ratio n` set the regulation ratio to min(n, 7), send it, and change nothing else |
| DeviceFirmware.BiasLine | bee_movie/pico/main.py:121-127 | `!bias n` selects the 1/7 bias iff n is not 0, sends it, and changes nothing else |
| DeviceFirmware.InvertLine | bee_movie/pico/main.py:129-135 | `!inv n` / `!invert n` invert the panel iff n is not 0, send it, and change nothing else |
| DeviceFirmware.PolarityLine | bee_movie/pico/main.py:177-182 | `!ledpol n` makes the LEDs active-low iff n is not 0, with no hardware action |
| DeviceFirmware.ProbeLine | bee_movie/pico/main.py:184-201 | `!probe p` on an existing pin lights it active-low for the default 120 ms, darkens it and returns it to input; on a missing pin nothing happens |
| DeviceFirmware.ProbeTimed | bee_movie/pico/main.py:184-201 | `!probe p pol ms` uses the given polarity and sleeps ms held to 10..2000 (exactly ms when already inside) |
| DeviceFirmware.TargetFpsLine | bee_movie/pico/main.py:203-208 | `!fps n` / `!targetfps n` store n unclamped as the health target, with no hardware action |
| DeviceFirmware.NegativeCommandLine | bee_movie/pico/main.py:88-99 | `!WORD -n` reaches the command handler as exactly the two words, and the argument parses back to -n |
| DeviceFirmware.ContrastNegativeLine | bee_movie/pico/main.py:104-111 | `!contrast -n` / `!c -n` set the contrast to 0 and send it |
| DeviceFirmware.ScanNoEdge | bee_movie/pico/main.py:296-328 | without a released-to-pressed edge a scan changes nothing |
| DeviceFirmware.ScanInRange | bee_movie/pico/main.py:296-328 | a scan keeps the settings in range |
| DeviceFirmware.ScanSingle | bee_movie/pico/main.py:296-328 | one lone new press acts as that button's action |
| DeviceFirmware.PressSteps | bee_movie/pico/main.py:300-327 | up/down step the contrast by one within 0..63; back/bootsel step the backlight by 4000 within 0..65535; OK with up/down/back tunes the ratio or flips the bias; OK alone flips invert |
| DeviceFirmware.HealthOneLit | bee_movie/pico/main.py:343-349 | exactly one of D2 and D3 is lit, D2 iff frames >= max(1, target-3) |
| DeviceFirmware.HealthExamples | bee_movie/pico/main.py:346 | 57 of 60 is healthy, 56 is not; a target of 2 still needs one frame |
| DeviceFirmware.LedSetBus | bee_movie/pico/main.py:66-69 | LED writes send nothing to the display |
| DeviceFirmware.FlatMapAppend | bee_movie/pico/main.py:104-135 | the display commands of joined action runs are joined |
| DeviceFirmware.PressInRange | bee_movie/pico/main.py:300-327 | one press keeps the settings in range |
| DeviceFirmware.Firmware.constructor | bee_movie/pico/main.py:221-277 | backlight at 25000, both LEDs dark, default settings, display initialised, then filled full and blank with a 150 ms pause |
| DeviceFirmware.Firmware.Perform | bee_movie/pico/main.py:104-135 | carries out the actions in order, display commands through the driver |
| DeviceFirmware.Firmware.PerformOne | bee_movie/pico/main.py:104-135 | one action, one driver call |
| DeviceFirmware.Firmware.HandleInputLine | bee_movie/pico/main.py:84-218 | the settings, LEDs, reply and hardware actions are those of the line function |
| DeviceFirmware.Firmware.ScanButtons | bee_movie/pico/main.py:294-328 | a scan is the scan function, and every previous level is updated |
| DeviceFirmware.Firmware.ScanOne | bee_movie/pico/main.py:297-328 | one button: its action on a new press, then its previous level |
| DeviceFirmware.Firmware.HealthCheck | bee_movie/pico/main.py:343-349 | the health LEDs are set and the window count starts over |
| DeviceFirmware.Firmware.Pass | bee_movie/pico/main.py:292-349 | one loop pass leaves exactly the settings, LEDs, button levels, frame count, actions and display traffic of the pass function |
| DeviceFirmware.Firmware.TakeLine | bee_movie/pico/main.py:338-342 | the line's settings and actions are `handle_line`'s, a returned frame is shown and the count goes up by one exactly for a frame |
| DeviceFirmware.PassFrame | bee_movie/pico/main.py:338-349 | a frame line without a scan shows exactly the decoded frame, changes no setting and is counted; a due health check judges the count with it |
| DeviceFirmware.PassCount | bee_movie/pico/main.py:338-349 | the count is kept by a stop, is 0 after a health check, and otherwise grows by one exactly for a frame line |
| DeviceFirmware.PassExit | bee_movie/pico/main.py:101-102 | a pass stops exactly on `!quit` or `!exit`; then nothing is shown and no health check runs |
| DeviceFirmware.PassHealth | bee_movie/pico/main.py:343-349 | a due health check that is reached resets the count and ends by lighting D2 iff the count met the target, D3 otherwise |

## Left out

- Floating point: brightness and contrast are computed over exact reals, not float32. The `np.power` gamma
  stage is the table parameter `gammaCurve`. Only its skip and refusal rules are modelled.
- `float()` on host values is the parameter `parseFloat`, giving a finite number, an infinity or NaN, or a
  failure. On device backlight ratios it is the board's `parseFloat`; `None` stands for where it raises, or
  for an infinity or NaN that the following `int()` rejects.
- ControlChannel.NumericKeys: `@contrast` with an infinity or NaN, and `@gamma` with `+inf` or NaN, are
  accepted by `float()` and stored in the source. The settings here are exact reals and cannot hold them, so the
  model leaves the setting as it was. `@gamma -inf` is stored as the negative stand-in
  `NegativeInfinityGamma`, which every frame refuses as the source refuses `-inf`.
- DeviceFirmware.BacklightValue: a fractional `!bl` value is `int(float(s) * 65535.0)` in MicroPython's
  single-precision float. The model computes it over exact reals, so rounding can differ in the last unit.
- Streaming.Streamer.Emit: a serial write never fails here. In the source, `ser.write` can raise on the
  5-second write time-out or a port error, nothing catches it, and the host stops.
- Streaming.Streamer.ForwardDeviceQueue: for the same reason, writing a queued device line never fails here.
- base64: the host's frame line carries the packed bytes, not their encoding. The device's `a2b_base64` is the
  parameter `decodeBase64`.
- Timing: `perf_counter`, `ticks_ms`, the pacing sleep, the 50/80/150 ms delays and the button and health
  periods. Clock readings are parameters (`now`, `sendTime`), periods are due flags, and delays are logged, not
  waited.
- Threads: the stdin reader thread and `SimpleQueue` are sequences. Typed lines arrive through `Submit` or
  `ReadCommands`. The reader's `except Exception: break` can only follow a UTF-8 encoding failure, which the
  ASCII model does not have.
- numpy `int16` storage in the diffusion loops: cells are unbounded integers, and wrap-around is not modelled.
- Text: `int()` accepting underscores and surrounding whitespace, non-ASCII whitespace (`str` also counts
  0x85, 0xA0 and Unicode spaces) and case folding, and UTF-8 encoding and decoding. Text is ASCII `seq<char>`;
  the ASCII whitespace of `str` (host) and of `bytes` (device) are both modelled.
- Logging, `print`, the `@help` text and progress output. `@help` changes no setting.
- The CLI, `build_ffmpeg_cmd`, the ffmpeg and ffplay processes, `gc.collect` and `uselect` polling. The main
  loop is one `Tick` or `Pass` per iteration.
- `--fps 0` with real-time pacing: the pacing target `start + frames_idx / args.fps` (stream_bee_movie.py:480)
  raises `ZeroDivisionError` after the first frame is sent. The model leaves pacing out, so it keeps running.
- The order in which the device scans its buttons: `buttons.items()` (main.py:296) follows the dict's
  insertion order on MicroPython builds that keep it, and the model takes that order (up, down, OK, back,
  bootsel). A port with another dict order would log the presses in another order.
- A negative `--frames`: the frame limit is a natural number, 0 meaning none.
- The packed-size assertion before sending: it always holds (`Process` proves 1024 bytes).
- `enable_backlight` choosing PWM or a plain pin at start-up is the `BacklightKind` parameter.
- Which pin numbers the MCU accepts is the `pinExists` parameter.
- DeviceFirmware.Firmware.constructor: requires LED pins 2 and 3 to exist, where start-up would raise.
- DeviceFirmware.PressSteps: the OK combinations re-read UP, DOWN and BACK. The model uses the levels sampled in the
  same scan.
- Streaming.Streamer.Tick: after an abort (an uncaught exception in the source) the object's state is left
  unspecified.
- ST7567Driver.ST7567.constructor: requires a height below 2056, so page numbers fit the one-byte page command.
- The Atkinson-versus-Floyd-Steinberg accumulated-error comparison: the source does not state it, and it is not
  claimed here.
- led_probe.py, upload_micropython.py and blink_test.py are not part of this model.
