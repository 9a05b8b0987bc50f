# Monitor control panel and OLED framebuffer, modelled in Dafny

The panel is a small board with seven push-buttons, three LEDs and a 128x64
monochrome OLED. It drives up to three monitor displays over UDP.

- **Command buttons.** Four buttons (DO, DOWN, UP, DONE) send the payloads
  "do", "down", "up" and "done" to the selected monitor.
- **Monitor keys.** Three keys select monitor 1, 2 or 3. A press sends
  "m1", "m2" or "m3" and lights the matching LED (red, yellow or green).
- **Liveness.** Every five seconds the panel pings the selected monitor. It
  shows on the OLED whether the monitor answered "pong".
- **OLED.** Text is drawn with a hand-written UTF-8 decoder and glyph
  bitmaps into a page-organised 1024-byte framebuffer.

The model covers the decision logic of `monitor_control.c` and the
framebuffer code of `oled_i2c.c`. Both files are imperative, so the model is
too:

- **`Controller.MonitorControl`** is a class. Its fields are the program's
  globals and the loop-carried locals of `main`, and `last_monitor_state[]`
  is an array. Each method is proved to do what a function of the pure
  model `Panel` says. `PanelProperties` proves what a whole cycle does.
- **`Debouncer.ReadLineDebounced`** is the sampling loop of
  `read_line_debounced`. It runs over a finite sequence of raw reads, and
  its result is specified by the predicate `Outcome`.
- **`Liveness`** is the `"pong"` matcher of `check_monitor`.
- **`Oled.Display`** is a class over the 1024-byte `array`. Its methods
  `Clear`, `DrawPixel`, `ClearLine`, `Blit` and `RenderText` are proved
  against the framebuffer functions of `Framebuffer` and `Text`.
  `Framebuffer` gives the pixel view of the buffer: bit `y % 8` of byte
  `(y / 8) * 128 + x` is pixel (x, y).
- **`Utf8`** is the lead-byte decoder of `render_text`. It is checked
  against an encoder of the forms in section 3 of RFC 3629, extended to
  21 bits and without excluding the surrogates, by a round-trip lemma.

Inputs the program reads from the outside become parameters:

- the debounced line levels;
- the two `time(NULL)` readings of a cycle;
- the datagram that answers a ping;
- the configured addresses and port, with `inet_pton`'s verdict as a
  function `parses`;
- the font, as a function from code point to the glyph that `FT_Load_Char`
  produces, or `None`.

Some behaviour of the code is worth knowing:

- **The liveness matcher accepts more than the four bytes "pong".** It takes
  the first 15 bytes of the datagram and compares them up to the first NUL,
  so "pong" followed by a NUL and any bytes is accepted too
  (`Liveness.IsPongExactly`).
- **A monitor-key press pings the new monitor.** It sends "ping" and then
  "m1" to "m3". The screen that ping would produce is replaced at once by
  the "selected" screen.
- **A newly pressed key whose address does not parse ends the process with
  status 1.** This can happen part-way through the key loop, after the
  command datagrams of the cycle have been sent (`PanelProperties.StepExits`,
  `PanelProperties.CommandsFirst`).
- **The port on the wire is the configured int cut to 16 bits by `htons`**
  (`Panel.Config.WirePort`).
- **The text decoder does not look for the terminator among the bytes that
  follow a lead byte.** See Findings.

## Model

| member | source | states |
|---|---|---|
| Debouncer.Outcome | monitor_control.c:104-116 | The reference result of reading a stream: the first failed read, else the first sample that closes a run of six equal reads, else nothing. A result it admits never uses more samples than the stream has, and a settled level is never negative |
| Debouncer.ReadLineDebounced | monitor_control.c:104-116 | The result is the one `Outcome` allows. A negative first read or re-read is returned at once and reads nothing after it. A level is returned once the candidate has been read again on DEBOUNCE_COUNT consecutive re-reads. A different read restarts the run with the new value. If the reads run out first, the result is "not settled" |
| Debouncer.OutcomeUnique | monitor_control.c:104-116 | For a given stream of reads, at most one result and one number of reads consumed satisfy `Outcome` |
| Debouncer.LevelNeedsFullRun | monitor_control.c:107-115 | A reported level is non-negative, took at least six reads, and equals each of the last six reads |
| Debouncer.SteadyLineSettles | monitor_control.c:107-115 | A line that reads one non-negative level six times settles on it after exactly six reads |
| Liveness.Received | monitor_control.c:145-146 | A datagram's first min(n, 15) bytes are stored: all of a short one, exactly 15 bytes of a longer one |
| Liveness.CString | monitor_control.c:146 | What `strcmp` compares is the prefix of the buffer before the first NUL |
| Liveness.IsPongExactly | monitor_control.c:142-148 | The check succeeds exactly when a datagram arrived that starts with "pong" and ends there or continues with a NUL. No reply, an empty reply or any other payload fails |
| Liveness.IsPong | monitor_control.c:142-148 | The reply check: a reply that is accepted exists and is at least as long as "pong" |
| Panel.Config.WirePort | monitor_control.c:95 | The port `htons` puts on the wire is in [0, 65536), agrees with the configured port modulo 65536, and equals it when it is in range |
| Panel.KeyPayload | monitor_control.c:304-305 | Key i sends the two characters 'm' and the digit of i + 1 |
| Panel.Select | monitor_control.c:89-101 | An index out of range changes nothing. An index in range selects that monitor. It sets the destination to the monitor's address and port when the address parses, and otherwise ends the process with status 1. No other part of the state changes |
| Panel.Command | monitor_control.c:245-255 | One command button. The datagrams sent only grow, by at most the one payload |
| Panel.Commands | monitor_control.c:244-294 | The four command buttons in the order DO, DOWN, UP, DONE. The datagrams sent only grow, by at most four |
| Panel.PressKey | monitor_control.c:300-318 | A monitor-key press. On a bad address the process ends with nothing sent; otherwise exactly two datagrams (ping, key message) are appended |
| Panel.KeyStep | monitor_control.c:298-321 | One iteration of the key loop. It keeps one recorded level per key and only appends datagrams |
| Panel.Keys | monitor_control.c:297-322 | The first n iterations of the key loop. It keeps one recorded level per key, only appends datagrams, and does nothing once the process has exited |
| Panel.Refresh | monitor_control.c:325-336 | The periodic refresh. It sends one ping exactly when five seconds have passed since the last check, and otherwise changes nothing |
| Panel.Step | monitor_control.c:243-339 | One pass of the main loop: commands, then keys, then the refresh unless a key press ended the process. The datagrams sent only grow |
| Panel.Start | monitor_control.c:223-241 | Start-up selects monitor 1. The process goes on exactly when its address parses, and then exactly one ping has been sent to it; on a bad address nothing was sent |
| PanelProperties.CommandEffect | monitor_control.c:245-255 | A command button sends its payload to the current destination and shows its status on the current monitor exactly on an edge (level 0 with a recorded level that is not 0); without an edge the traffic and screen stay as they were; nothing else changes |
| PanelProperties.CommandsEffect | monitor_control.c:244-294 | The command phase appends one datagram per edge, in the order DO, DOWN, UP, DONE, to the destination held before the cycle. It records all four levels and changes neither the selection nor the LEDs. The screen shows the current monitor with the status of the last button that had an edge (DONE over UP over DOWN over DO), and stays as it was when none had one |
| PanelProperties.KeyStepEffect | monitor_control.c:298-321 | One key iteration handles an edge as follows: it selects the monitor, sends "ping" and "m<i+1>" to it and lights its LED alone, or it exits with status 1. Without an edge it only records the level |
| PanelProperties.KeysFrame | monitor_control.c:297-322 | The key loop records every level it reads and leaves the command levels and `last_check` alone. It exits exactly when a newly pressed key's address does not parse |
| PanelProperties.KeysStopAfterExit | monitor_control.c:96-99 | Once a key press has ended the process, no later key is handled |
| PanelProperties.KeysSendNoCommands | monitor_control.c:297-322 | The key loop only appends datagrams, and none of them carries a command payload |
| PanelProperties.KeyStepSendsNoCommands | monitor_control.c:298-321 | One key iteration appends to the datagrams already sent, and what it appends is a ping or an "m<i+1>" key message, never a command |
| PanelProperties.KeysEffect | monitor_control.c:297-322 | Without an exit, the key loop sends a ping and "m<i+1>" to monitor i for each newly pressed key i, in index order. The last such key ends up selected, with its LED alone lit |
| PanelProperties.StartEstablishesInv | monitor_control.c:223-241 | Start-up selects monitor 1 and pings it. It records every level as 1 and `last_check` as 0 and lights the red LED alone, or it exits with status 1 when monitor 1's address does not parse |
| PanelProperties.StepExits | monitor_control.c:297-322 | A cycle ends the process, with status 1, exactly when a newly pressed monitor key's address does not parse |
| PanelProperties.AllParseNeverExits | monitor_control.c:96-99 | When every configured address parses, a cycle never exits |
| PanelProperties.CommandsFirst | monitor_control.c:244-294 | A cycle first sends the fired commands in the order do, down, up, done, to the destination selected before the cycle. Nothing it sends afterwards is a command, and this holds on the exit path too |
| PanelProperties.StepTraffic | monitor_control.c:243-339 | The datagrams of a cycle are the commands, then a ping and "m<i+1>" for each newly pressed key, then the periodic ping when five seconds have passed |
| PanelProperties.StepState | monitor_control.c:243-339 | A cycle preserves the invariant: a valid selection whose address is the destination and whose LED alone is lit. The highest newly pressed key wins. Every level read is recorded. The refresh runs when `now - last_check >= 5`, sets `last_check` to the later clock reading and shows whether "pong" came back |
| PanelProperties.NewestKeyIsLoopResult | monitor_control.c:297-322 | Running the key loop in index order selects the highest newly pressed key |
| PanelProperties.HeldButtonFiresOnce | monitor_control.c:245-294 | A button held at 0 fires on the first cycle that reads 0 and not again until it has read non-zero |
| PanelProperties.FirstCycleFires | monitor_control.c:233-239 | All recorded levels start at 1, so each of do, down, up, done and the three monitor keys fires on the first cycle exactly when held, and the first refresh is due once the clock reads 5 |
| Controller.MonitorControl.constructor | monitor_control.c:223-241 | The object starts in the state `Panel.Start` describes |
| Controller.MonitorControl.SetMonitor | monitor_control.c:89-101 | `set_monitor` updates the state as `Panel.Select` says |
| Controller.MonitorControl.SendToMonitor | monitor_control.c:249 | One datagram with the payload goes to the current destination |
| Controller.MonitorControl.CheckMonitor | monitor_control.c:127-149 | `check_monitor` pings the current destination and returns whether the reply is "pong" |
| Controller.MonitorControl.HandleCommand | monitor_control.c:246-254 | One command button updates the state as `Panel.Command` says |
| Controller.MonitorControl.PollCommands | monitor_control.c:244-294 | The four command buttons update the state as `Panel.Commands` says |
| Controller.MonitorControl.PollKeys | monitor_control.c:297-322 | The key loop, which works in place on `last_monitor_state[]`, updates the state as `Panel.Keys` says |
| Controller.MonitorControl.RefreshStatus | monitor_control.c:325-336 | The five-second refresh updates the state as `Panel.Refresh` says |
| Controller.MonitorControl.Cycle | monitor_control.c:243-339 | One pass of the main loop updates the state as `Panel.Step` says |
| Framebuffer.Offset | oled_i2c.c:63-64 | Every on-screen pixel's byte `(y/8)*128+x` lies inside the 1024-byte buffer |
| Framebuffer.Plot | oled_i2c.c:61-66 | Drawing off screen leaves the buffer unchanged. On screen, only byte `(y/8)*128+x` can change and the size stays 1024 |
| Framebuffer.MaskBits | oled_i2c.c:64-65 | Or-ing with `1<<bit` sets that bit alone, and and-ing with its complement clears that bit alone |
| Framebuffer.MaskIsShift | oled_i2c.c:64-65 | The mask for bit k of a page byte is `1 << k` |
| Framebuffer.WithBitBits | oled_i2c.c:63-65 | Writing a colour into bit k of a byte makes bit k that colour and leaves the other seven bits alone |
| Framebuffer.PlotBits | oled_i2c.c:63-65 | On screen, bit `y%8` of the pixel's byte takes the colour and its other seven bits keep their value |
| Framebuffer.DistinctPixelsDistinctBits | oled_i2c.c:63-64 | Two different on-screen pixels never share both byte and bit |
| Framebuffer.PlotPixels | oled_i2c.c:61-66 | After drawing, the pixel drawn has the new colour and every other pixel keeps its colour |
| Framebuffer.PlotIdempotent | oled_i2c.c:63-65 | Drawing the same pixel with the same colour twice is the same as drawing it once |
| Framebuffer.PixelsDetermineBuffer | oled_i2c.c:10-15 | Two buffers that show the same 128x64 pixels are equal byte for byte |
| Framebuffer.Blank | oled_i2c.c:51 | The cleared buffer has 1024 bytes and no pixel lit |
| Oled.Display.constructor | oled_i2c.c:36 | The buffer starts as 1024 zero bytes |
| Oled.Display.Clear | oled_i2c.c:51 | `oled_clear` leaves every byte 0 |
| Oled.Display.DrawPixel | oled_i2c.c:61-66 | `oled_draw_pixel` changes the buffer as `Plot` says, setting the pixel when `color != 0` and clearing it otherwise |
| Oled.Display.WritePixel | oled_i2c.c:63-65 | The on-screen branch of `oled_draw_pixel`: the or/and-not update of byte `(y/8)*128 + x` changes the buffer exactly as `Plot` does |
| Oled.Display.ClearLine | oled_i2c.c:68-74 | `oled_clear_line(y, h)` turns off every on-screen pixel in rows y to y+h-1 across all 128 columns and leaves every other pixel unchanged |
| Oled.Display.ClearRow | oled_i2c.c:70-72 | The column loop turns off one whole row and leaves every other pixel unchanged |
| Oled.Display.Blit | oled_i2c.c:91-100 | The glyph loops change the buffer as `Text.Blit` says |
| Oled.Display.RenderText | oled_i2c.c:77-104 | `render_text` changes the buffer as `Text.RenderFrom` says, and reports whether it read past the bytes given |
| Utf8.SequenceLength | oled_i2c.c:82-86 | The length a lead byte announces is at most 4, and is 1 exactly for the ASCII bytes below 0x80 |
| Utf8.SequenceLengthRanges | oled_i2c.c:82-86 | The lead-byte masks give 1 byte for 00-7F, 2 for C0-DF, 3 for E0-EF and 4 for F0-F7. Every other lead (80-BF, F8-FF) is skipped |
| Utf8.Low6 | oled_i2c.c:83-85 | A following byte contributes six bits |
| Utf8.DecodeAt | oled_i2c.c:79-86 | A lead byte is skipped exactly when its length is 0. Decoding is cut short exactly when the form runs past the bytes. Otherwise the code point takes as many bytes as the lead announces and stays below 0x80, 0x800, 0x10000 or 0x200000 |
| Utf8.Assemble2 | oled_i2c.c:83 | The two-byte code point is below 0x800 |
| Utf8.Assemble3 | oled_i2c.c:84 | The three-byte code point is below 0x10000 |
| Utf8.Assemble4 | oled_i2c.c:85 | The four-byte code point is below 0x200000 |
| Utf8.DecodeEncode | oled_i2c.c:79-86 | Decoding the shortest encoding form of any code point below 0x200000 gives that code point and uses the whole form |
| Utf8.Encode | oled_i2c.c:79-86 | The reference encoder of the shortest form, extended to 21 bits: 1 to 4 bytes, a single byte exactly for code points below 0x80, and every following byte of the form `10xxxxxx` |
| Text.BlitFrom | oled_i2c.c:91-100 | The glyph loops from cell (row, col) on, as a function of the buffer; it keeps the buffer at 1024 bytes |
| Text.BlitFromPixels | oled_i2c.c:91-100 | The rest of the glyph loops lights exactly the pixels covered by the remaining cells with coverage above 128, and turns nothing off |
| Text.Blit | oled_i2c.c:91-100 | After the blit, a pixel is lit exactly when it was lit before or a glyph cell with coverage above 128 lands on it |
| Text.PenStep | oled_i2c.c:101 | `advance.x >> 6` is the 26.6 advance divided by 64, rounded down |
| Text.RenderFrom | oled_i2c.c:77-104 | The walk of `render_text` as written. It keeps the buffer at 1024 bytes; what it draws and where the pen ends are stated by the lemmas below |
| Text.RenderFromDecomposes | oled_i2c.c:77-104 | The walk is decoding followed by drawing. The final buffer is the glyphs that load for the decoded code points, blitted in order, each at the pen the earlier advances leave. The final pen is the start plus the advances of those glyphs and nothing else |
| Text.SkipDrawsNothing | oled_i2c.c:86 | A byte that starts no sequence costs one byte, draws nothing and decodes no code point |
| Text.CodePoints | oled_i2c.c:77-87 | The code points the walk decodes, in order, all below 0x200000 |
| Text.Loaded | oled_i2c.c:88 | The glyphs the font loads for those code points: no more than the code points, each well formed, and none when no code point has a glyph |
| Text.RenderOnlySets | oled_i2c.c:91-100 | Rendering text never turns a pixel off |
| Text.NothingLoadedDrawsNothing | oled_i2c.c:88 | When no glyph loads, the walk draws nothing and the pen does not move |
| Text.TerminatorOverrun | oled_i2c.c:83-86 | The two bytes C3 00 send the walk past their end |
| Text.RenderString | oled_i2c.c:77-104 | The walk with the decoder stopping at the terminator. It keeps the buffer at 1024 bytes; `RenderStringAgrees` ties it to the program's walk and `RenderStringIgnoresTail` shows it reads nothing after the terminator |
| Text.RenderStringAgrees | oled_i2c.c:77-104 | On a terminated string the program walks to its end without reading past, the corrected walk draws exactly the picture the program draws |
| Text.NotCrossing | oled_i2c.c:83-86 | When the program steps over a multi-byte form without overrunning, that form ends before the terminator |
| Text.RenderStringIgnoresTail | oled_i2c.c:77-104 | The corrected walk reads nothing past the first NUL: bytes appended after it do not change the result |

## Left out

- GPIO: acquiring and requesting lines and writing the LEDs (libgpiod). The LEDs are the `leds` triple in the state.
- The UDP socket, `sendto`, `select`, `recvfrom` and the 500 ms timeout. `sent` records every datagram the code tries to send. A failed `sendto`, which the code only logs, is not distinguished. The reply to a ping is an input.
- `load_env_config`, `getenv`, `atoi` and `inet_pton`. The configuration is a parameter, and address validity is the function `parses`.
- `usleep`, `time` and `difftime`. The two clock readings of a cycle are inputs, and time is a whole number of seconds.
- The `SIGINT` handler `intHandler`: it is asynchronous teardown of external resources.
- FreeType initialisation, font loading and rasterisation. The font is a function from code point to glyph.
- Text.Glyph: rows are at least `width` bytes apart (a non-negative `pitch`). A bottom-up bitmap with a negative pitch is not modelled.
- The I2C transport: `oled_init`'s command sequence, `oled_write_cmd`, `oled_write_data` and `oled_display`. They are device output.
- The Thai display strings, `snprintf` and `printf`/`perror`. The display is the pair (monitor, `Status`), and the strings are not drawn through the framebuffer.
- `render_monitor_text` and `display_monitor_status`: the panel model records which screen is shown. It does not connect that screen to the pixels of `Oled.Display`.
- Debouncer.ReadLineDebounced: the reads form a finite sequence and the 5 ms waits between them are left out. A line that never settles within the sequence gives "not settled", where the C function would keep reading.
- Panel.Readings: a cycle takes the seven debounced results as inputs, not the raw reads behind them.
- Panel.Select: on an address that does not parse, the C code has already zeroed `dest_addr` before it exits. The model keeps the old destination, since the process has ended.
- Panel.PressKey: the screen rendered by `display_monitor_status` during a key press is not modelled, because the "selected" screen replaces it at once. Its ping is modelled.
- Text.RenderFrom: `text` is the memory from the string's first byte on. Reading beyond it (no terminator, or a lead byte that announces more bytes than remain) stops the walk with `overrun` set. The C code would read on.
- Oled.Display.ClearLine: `y + height` is unbounded, and the overflow of C's `int` is not modelled. The pen position `x_offset` is unbounded in the same way.

## Findings

| source | as written | input that shows it | evidently intended | confidence | as-written member | corrected member |
|---|---|---|---|---|---|---|
| oled_i2c.c:83-86 | The following bytes of a multi-byte form are read without checking for the terminator. The read position then moves past them, so a NUL among them is consumed as payload and the walk goes on beyond the end of the string | the string "\xC3", stored as C3 00 | The walk stops at the terminator and reads nothing after it | not executed | Text.TerminatorOverrun | Text.RenderStringIgnoresTail |

`Oled.Display.RenderText` models the code as written. `Text.RenderString` is the corrected walk. It ends the string when a form would reach the terminator, and `Text.RenderStringIgnoresTail` proves that it reads nothing past the first NUL.
