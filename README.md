# ESP32 test console — menu and telemetry core

A model of the firmware of a test console (`src/main.cpp`). The console is an
Adafruit HUZZAH32 ESP32 Feather with an OLED screen and a rotary encoder with
a push button. It queries and drives an STM32 board over a serial link. The
STM32 reports load, temperatures, fan readings, a gesture code and stop
statuses. The console drives fans, an RGB LED and a brake motor. The model
covers:

- **Telemetry** (`readSTM32Data`):
  - The firmware sends the query `$A` CR LF.
  - It assembles one reply line into a 64-byte buffer, keeping only printable
    characters.
  - A line that is empty or does not start with `$` is rejected.
  - The rest of the line is tokenized on commas into at most 15 32-bit
    numbers.
  - Fifteen telemetry globals take their new values in stages (4, 7, 8, then
    one endstop flag per further value up to 15). The gesture code is
    filtered to 0..4.
- **Commands**: `$F1`/`$F2` (intake fans), `$F3` (exhaust fan), `$LA` (colour
  LED) and `$B0`/`$B1` (brake motor). They carry decimal arguments and end in
  CR LF.
- **The menu** (`updateMenu` and `encoderISR`):
  - Encoder detents are handled per screen:
    - the main menu's cursor wraps at both ends;
    - fan speeds and colour components move by ten per detent and are clamped;
    - the brake engages on a right turn and releases on a left turn.
  - Each call of updateMenu that sees the encoder moved on a fan, colour-editing
    or brake screen sends that screen's command once, for the accumulated
    movement (two commands for the intake fans). The main menu, the colour
    screen's component choice and the read-only screens send nothing.
  - A debounced button press opens the entry under the cursor (resetting the
    opened screen's setting), steps through the colour screen's sub-modes, or
    returns to the main menu.
- **Screen arithmetic**: the scroll window of the main menu and the width a
  progress bar fills.

The modules follow the firmware's structure:

- `CInt`: 32-bit wrap-around, and C division.
- `Decimal`: digit strings and `print(int)`.
- `LineReader`: the read loop.
- `Tokenizer`: the parse loop.
- `Telemetry`: the staged update, as a value-level function.
- `Commands`: the command builders.
- `Menu`: `updateMenu` as a value-level step function with its invariants.
- `Layout`: the screen arithmetic.
- `Console`: class `Firmware`, holding the globals as fields. Its methods
  change those fields as the firmware does and are proved equal to the
  functions of `Telemetry` and `Menu`.

The serial link appears in the class as two fields: `tx` (the command lines
written, in order) and `rx` (bytes that have arrived but were not yet read).

Behaviour of the code worth knowing:

- **Line length.** The read loop stops as soon as 63 characters are stored.
  An accepted line therefore holds at most 62 characters; a 63rd printable
  character ends the read with no line.
- **Leftover LF.** The read stops at the first CR or LF, so the LF of a CR LF
  stays in the receive buffer. The next read finds an empty line there and
  rejects it (`CrLfLeavesLineFeed`, `ReplyRoundTrip`).
- **Cursor wrap.** When the cursor overruns an end it restarts at the other
  end; this is not arithmetic modulo the list length. Three detents forward
  and then one back do not always move the cursor two places: near the ends
  the cursor restarts at the other end (`WrapIsNotModular`). Single detents
  do wrap modularly (`WrapSingleStep`).
- **Brake.** The brake is set by the direction of rotation.
- **Back.** Every press on a fan, brake or live-view screen returns to the
  main menu (`ClickGoesBack`).
- **Non-digit characters.** A non-digit, non-comma character inside a number
  is skipped, not rejected, so `1.5` reads as 15 (`DecimalPointIsSkipped`).
- **Dead flush.** The flush after the parse loop never stores anything: the
  loop always leaves through the NUL placed past the end of the line.

## Model

| member | source | states |
|---|---|---|
| LineReader.ReadLine | src/main.cpp:204-217 | A line is produced exactly when a CR or LF comes before the 63rd printable character. The line is then printable, at most 62 characters long, and what remains is a suffix of the input. |
| LineReader.ReadLoop | src/main.cpp:199-217 | The buffer loop over `char buffer[64]` stops at the first terminator, after 63 stored characters, or at the end of the input. The stored text is the printable characters read so far. |
| LineReader.AssembleLine | src/main.cpp:199-221 | The buffer loop and the completion test give exactly the outcome `ReadLine` specifies, including the unread rest of the input. |
| LineReader.TerminatedLine | src/main.cpp:207-211 | A printable body shorter than the buffer, followed by CR or LF, is read as that line, and reading resumes after the terminator. |
| LineReader.CrLfLeavesLineFeed | src/main.cpp:207-211 | A CR LF terminated body is read as that line and leaves the LF behind. The next read yields an empty line. |
| LineReader.ReadLineAtLimit | src/main.cpp:204-217 | Once 63 printables are stored before any terminator, there is no line, and the input is consumed just past the 63rd printable. |
| LineReader.CutUnique | src/main.cpp:212-214 | Only one prefix of the input ends in its k-th printable character, so the stop point at the buffer limit is unique. |
| Tokenizer.ParseValues | src/main.cpp:228-252 | The parse loop over `int values[15]` yields exactly the tokens of the payload after `$`. |
| Tokenizer.FlushValue | src/main.cpp:239-244 | At a comma or stop, a pending number is stored in the next free slot while fewer than 15 are stored, and the accumulator resets. |
| Tokenizer.AccumulateDigit | src/main.cpp:236-238 | `numValue * 10 + digit` in 32-bit arithmetic equals the digit string read so far, wrapped to 32 bits. |
| Tokenizer.ScanTokens | src/main.cpp:234-252 | The loop variables after the text up to the first stop, flushed, give the first 15 non-empty comma-separated segments, in order. |
| Tokenizer.NumeralsRoundTrip | src/main.cpp:234-252 | Comma-separated decimal numerals below 2^31, followed by a stop or by nothing, read back in order as the first 15 of those numbers. |
| Tokenizer.DecimalPointIsSkipped | src/main.cpp:236-246 | A character that is neither a digit nor a comma is skipped inside a number: `1.5` CR reads as the single value 15. |
| Tokenizer.SegmentsJoin | src/main.cpp:239 | Joining comma-free pieces with commas and splitting at commas gives back the pieces (used by `NumeralsRoundTrip` to split a written reply into its numerals). |
| Tokenizer.JoinSegments | src/main.cpp:239 | Splitting at commas and joining again gives back the text: the split loses no character. |
| Tokenizer.Tokens | src/main.cpp:234-252 | The reference for the parse loop, defined without it: at most 15 values, the digits of each comma-separated segment before the first CR, LF or NUL read as a 32-bit number, segments without a digit skipped. `ParseValues`, `ScanTokens` and `NumeralsRoundTrip` are stated against it. |
| Tokenizer.Flush | src/main.cpp:239-244 | Definition: a pending number is appended while fewer than 15 are stored, and the accumulator clears; `FlushValue` is proved equal to it. |
| Tokenizer.Step | src/main.cpp:235-246 | Definition of one loop iteration: a digit accumulates in 32 bits, a comma or stop flushes, anything else is skipped. |
| Tokenizer.ScanOf | src/main.cpp:234-247 | Definition: the loop variables after a text, one `Step` per character; `ScanTokens` relates it to `Tokens`. |
| Telemetry.Apply | src/main.cpp:254-293 | Definition of the staged update, as the composition of the stages below; `ApplyPositional`, `ShortReplyChangesNothing` and `FullReplyOverwritesAll` state what it does field by field. |
| Telemetry.LoadStage | src/main.cpp:255-259 | Definition: load and the three temperatures from values 1 to 4. |
| Telemetry.FansStage | src/main.cpp:261-265 | Definition: the three fan readings from values 5 to 7 when there are seven or more. |
| Telemetry.GestureStage | src/main.cpp:267-271 | Definition: the gesture, filtered by `GestureCode`, when there are eight or more values. |
| Telemetry.StopsStage | src/main.cpp:286-293 | Definition: the endstop flags, from nine values on. |
| Telemetry.AxisStops | src/main.cpp:287-289 | Definition: the Z flag from value 9, the two Y flags from values 10 and 11 when present. |
| Telemetry.CoverStops | src/main.cpp:290-293 | Definition: the four cover flags from values 12 to 15 when present. |
| Telemetry.Received | src/main.cpp:219-293 | Definition: a rejected read leaves the readings, an accepted one applies the staged update; `RejectedFramesChangeNothing` and `ChangeImpliesRefresh` are about it. |
| Telemetry.Refreshes | src/main.cpp:296 | Definition: the screen is marked when an accepted reply held four values or more. |
| Telemetry.Reply | src/main.cpp:219-226 | A read yields values exactly when it completed a non-empty line starting with `$`. The values are the tokens of the rest of the line, at most 15 of them. |
| Telemetry.GestureCode | src/main.cpp:267-271 | The stored gesture is in 0..4. It equals the received code exactly when that code is in 0..4, and is 0 otherwise. |
| Telemetry.InitialGestureInRange | src/main.cpp:62 | The power-on gesture code is in 0..4. |
| Telemetry.ReceivedKeepsGesture | src/main.cpp:219-293 | Every read, rejected or accepted and with any number of values, leaves a gesture code that was in 0..4 in 0..4. |
| Telemetry.ApplyPositional | src/main.cpp:255-293 | Field i of the readings is replaced exactly when the reply reaches that field's threshold (4, 7, 8, then i + 1). It then takes value i, filtered for the gesture; otherwise it is unchanged. |
| Telemetry.ShortReplyChangesNothing | src/main.cpp:255 | A reply with fewer than four values leaves every reading unchanged. |
| Telemetry.FullReplyOverwritesAll | src/main.cpp:255-293 | A fifteen-value reply determines all readings, whatever they were before. Every field except the gesture is the value at its position. |
| Telemetry.RejectedFramesChangeNothing | src/main.cpp:219-226 | No line, an empty line, or a line not starting with `$` leaves the readings unchanged and does not mark the screen. |
| Telemetry.ChangeImpliesRefresh | src/main.cpp:296 | Whenever a reply changes the readings, it also marks the screen for redrawing. |
| Telemetry.ReplyRoundTrip | src/main.cpp:204-252 | A `$`-framed CR LF reply of at most 15 numbers below 2^31, short enough for the buffer, is accepted and yields those numbers, in order. |
| Telemetry.FourValueReply | src/main.cpp:254-259 | `$123,456,78,901` CR LF updates the load and the three temperatures and nothing else. |
| Telemetry.NineValueUpdate | src/main.cpp:286-289 | Nine values update everything up to the Z endstop flag and leave the six later flags unchanged. |
| Console.Firmware.ReadSTM32Data | src/main.cpp:192-327 | The query is sent, the read consumes what `ReadLine` consumes, and the readings become those of the staged update for the accepted reply. The screen is marked exactly when four or more values arrived, nothing else changes, and the class invariant (the menu ranges and the gesture code in 0..4) is kept. |
| Console.Firmware.Exchange | src/main.cpp:192-303 | The stores of readSTM32Data: the same query, read and readings as `ReadSTM32Data`, and a gesture code in 0..4 stays in 0..4. |
| Console.Firmware.StoreValues | src/main.cpp:254-303 | The globals become the staged update of the values. The redraw flag is set when there are four or more values. A gesture code in 0..4 stays in 0..4. |
| Console.Firmware.StoreLoad | src/main.cpp:255-259 | The load and the three temperatures take the first four values. |
| Console.Firmware.StoreFans | src/main.cpp:261-265 | The three fan readings take values 5 to 7 when there are seven or more. |
| Console.Firmware.StoreGesture | src/main.cpp:267-271 | The gesture takes the filtered eighth value when there are eight or more, so a gesture code in 0..4 stays in 0..4. |
| Console.Firmware.StoreStops | src/main.cpp:286-293 | Each endstop flag takes its own value when the reply reaches it. |
| Console.Firmware.StoreAxisStops | src/main.cpp:287-289 | The Z and Y flags take values 9, 10 and 11 as far as the reply reaches. |
| Console.Firmware.StoreCoverStops | src/main.cpp:290-293 | The four cover flags take values 12 to 15 as far as the reply reaches. |
| Console.Firmware.EncoderIsr | src/main.cpp:330-341 | The encoder state becomes that of `Menu.Turned`. |
| Menu.Turned | src/main.cpp:330-341 | On a change of the clock line the position moves by one: forward when DT differs from CLK, backward otherwise. Without a change it stays. The clock level is recorded. |
| Commands.FanValue | src/main.cpp:759 | For 0..100 percent the duty `pct * 1999 / 100` lies in 0..1999. It is 0 exactly at 0 % and 1999 exactly at 100 %. |
| Commands.FanValueMonotone | src/main.cpp:759 | A higher percentage never gives a lower duty. |
| Commands.FanCommandText | src/main.cpp:762-764 | A fan command is `$F`, the fan digit, the duty in decimal, and CR LF. |
| Commands.FanCommandReadsBack | src/main.cpp:756-782 | The duty of a fan command reads back, with the firmware's own number reader, as the duty for the percentage. |
| Commands.RgbCommandText | src/main.cpp:736-742 | The colour command is `$LA`, hue, comma, saturation, comma, value, CR LF. |
| Commands.RgbCommandReadsBack | src/main.cpp:734-743 | The three components of a colour command read back, in order. |
| Commands.Frame | src/main.cpp:194 | A command is `$`, the body and CR LF: the body sits between the `$` and the final two characters, which are CR LF. The query `Query` is `Frame("A")`, the `$A` CR LF of line 194. |
| Commands.FanCommand | src/main.cpp:762-764 | Definition of `$F<fan><duty>` CR LF; `FanCommandText` and `FanCommandReadsBack` state its text and its read-back. |
| Commands.IntakeFanCommands | src/main.cpp:756-782 | Definition: the fan 1 then the fan 2 command with the same duty. |
| Commands.ExhaustFanCommands | src/main.cpp:785-800 | Definition: the single fan 3 command. |
| Commands.RgbCommand | src/main.cpp:734-743 | Definition of `$LA<h>,<s>,<v>` CR LF; `RgbCommandText` and `RgbCommandReadsBack` state its text and read-back. |
| Decimal.IntToString | src/main.cpp:763 | Definition of `print(int)`: a minus sign for negative numbers, then the decimal digits; `NatToStringRoundTrip` and `FanCommandReadsBack` show the digits read back. |
| Commands.BrakeCommand | src/main.cpp:593-597 | The brake command is `$B1` CR LF when engaged and `$B0` CR LF when released. |
| Commands.FrameReadsAsLine | src/main.cpp:204-217 | A framed command with a printable body of at most 61 characters is one line to the firmware's own line reader. |
| Console.Firmware.SendIntakeFanCommand | src/main.cpp:756-782 | Appends the fan 1 command, then the fan 2 command, with the duty for the intake speed, and marks the speed sent. |
| Console.Firmware.SendExhaustFanCommand | src/main.cpp:785-800 | Appends the fan 3 command for the exhaust speed and marks it sent. |
| Console.Firmware.SendRgbLedCommand | src/main.cpp:734-753 | Appends the colour command for the current components and marks it sent. |
| Console.Firmware.SendBrakeMotorCommand | src/main.cpp:593-602 | Appends `$B1` or `$B0` for the given state. |
| Menu.Wrap | src/main.cpp:807-809 | The cursor ends in range. An in-range cursor is unchanged; one below 0 goes to the last entry; one past the end goes to 0. |
| Menu.WrapSingleStep | src/main.cpp:807-809 | For one detent the wrap equals arithmetic modulo the list length. |
| Menu.WrapIsNotModular | src/main.cpp:807-809 | For several detents it does not: 9 + 3 gives 0, not 1, and 1 - 3 gives 10, not 9. |
| Menu.Clamp | src/main.cpp:815-816 | The result lies in the bounds, and a value already in the bounds is unchanged. |
| Menu.ClampNearest | src/main.cpp:815-816 | The clamped value is the point of the range nearest to the input. |
| Menu.AdjustedDirection | src/main.cpp:814-816 | A right turn never lowers a setting, a left turn never raises it, and no turn keeps it. |
| Menu.AdjustedKeepsTens | src/main.cpp:814-816 | With bounds that are multiples of ten, settings stay multiples of ten. |
| Menu.Rotated | src/main.cpp:804-877 | Turning the knob never changes the screen or the button state, and it records the acted-on encoder position. |
| Menu.RotateMain | src/main.cpp:806-811 | On the main menu the cursor moves with the wrap, nothing is sent, and the redraw flag clears. |
| Menu.RotateIntakeFan | src/main.cpp:812-820 | On the intake screen the speed becomes the clamped old speed + 10 × detents, marked sent. Fan 1 and fan 2 commands are sent for that speed. |
| Menu.RotateExhaustFan | src/main.cpp:821-829 | On the exhaust screen the speed moves the same way, and only the fan 3 command is sent. |
| Menu.RotateRgbNavigate | src/main.cpp:831-837 | While choosing, only the component cursor moves, wrapping among four entries, and nothing is sent. |
| Menu.RotateRgbEdit | src/main.cpp:838-860 | While editing, only the selected component moves, clamped to 0..360 for hue and 0..100 otherwise. The colour command with all three components is sent. |
| Menu.RotateRgb | src/main.cpp:830-860 | The colour screen's rotation in either sub-mode. |
| Menu.RotateBrake | src/main.cpp:861-874 | A right turn engages the brake and a left turn releases it. The matching `$B1` or `$B0` is sent. |
| Menu.RotateReadOnly | src/main.cpp:804-877 | On the read-only screens turning does nothing except record the encoder position. |
| Menu.RotatedFramed | src/main.cpp:812-874 | Every command the knob sends is `$`, a printable body and CR LF. |
| Menu.RotatedValid | src/main.cpp:804-877 | Turning keeps speeds in 0..100 and colour components within their limits, all in steps of ten, and the cursors on their entries. |
| Menu.FanTurnedValid | src/main.cpp:814-816 | A fan speed stays in 0..100 in steps of ten. |
| Menu.RgbTurnedValid | src/main.cpp:831-855 | The colour settings stay within their ranges. |
| Menu.InitialValid | src/main.cpp:94-118 | The power-on values satisfy the ranges. |
| Menu.Initial | src/main.cpp:94-121 | Definition of the power-on menu globals: main menu, cursor 0, fans at 0 % unsent, colour defaults, brake released, encoder at 0, button HIGH, redraw pending; `InitialValid` shows they meet the ranges. |
| Menu.FanTurned | src/main.cpp:814-818 | Definition: ten percent per detent clamped to 0..100, marked sent; `FanTurnedValid` and `RotateIntakeFan` are about it. |
| Menu.RgbTurned | src/main.cpp:831-857 | Definition of the colour screen's rotation in both sub-modes; `RgbTurnedValid`, `RotateRgbNavigate` and `RotateRgbEdit` are about it. |
| Menu.Opened | src/main.cpp:890-940 | Definition of opening a screen with its resets; `ClickFromMain` states them. |
| Menu.RgbClicked | src/main.cpp:949-969 | Definition of a press on the colour screen; `ClickRgb` states its three cases. |
| Menu.Clicked | src/main.cpp:888-988 | Definition of a debounced press on any screen; `ClickFromMain`, `ClickGoesBack`, `ClickRgb`, `ClickKeepsSelection` and `ClickedValid` are about it. |
| Menu.IsPress | src/main.cpp:884 | Definition: a HIGH to LOW edge more than 300 ms, in unsigned arithmetic, after the last press; `PressesAreDebounced` and `OnePressPerPush` are about it. |
| Menu.KnobPart | src/main.cpp:804-877 | Definition: the rotation step when the encoder moved, nothing otherwise. |
| Menu.ButtonPart | src/main.cpp:880-991 | Definition: a press clicks and records its time; the level is recorded always. |
| Menu.Update | src/main.cpp:802-992 | Definition of one updateMenu call, the knob part then the button part; `UpdateValid`, `UpdateFramed` and `UpdateCatchesUp` are about it. |
| Menu.Run | src/main.cpp:330-992 | Definition of a run of encoder interrupts and updateMenu calls, with every command sent; `RunValid` and `RunFramed` are about it. |
| Menu.Entry | src/main.cpp:888-940 | Main-menu entry k opens the screen at position k + 1 of the screen enumeration. |
| Menu.ClickFromMain | src/main.cpp:888-940 | A press on the main menu opens the entry under the cursor:<br>• the fan screens start at 0 % unsent;<br>• the colour screen starts at hue 0, saturation 100 and value 100, with the encoder zeroed;<br>• the brake starts released;<br>• the fan and brake screens keep the encoder position. |
| Menu.ClickGoesBack | src/main.cpp:941-987 | From every screen except the main menu and the colour screen, a press returns to the main menu and changes nothing else. |
| Menu.ClickRgb | src/main.cpp:949-969 | On the colour screen a press does one of three things:<br>• on exit, it returns to the main menu;<br>• on a component, it starts editing it with the encoder zeroed, not yet sent;<br>• while editing, it goes back to choosing. |
| Menu.ClickKeepsSelection | src/main.cpp:888-988 | A press never moves the main-menu cursor. |
| Menu.ClickedValid | src/main.cpp:888-988 | A press keeps the ranges. |
| Menu.Elapsed | src/main.cpp:884 | `millis() - lastButtonPress` in 32-bit unsigned arithmetic: plain subtraction, or plus 2^32 when the clock wrapped. |
| Menu.PressesAreDebounced | src/main.cpp:884 | A press at most 300 ms (in unsigned `millis()` arithmetic, so also across the 32-bit clock wrap) after the previous one is ignored. |
| Menu.OnePressPerPush | src/main.cpp:884-991 | After a poll that saw the button LOW, the next LOW poll is no press, whatever its time. |
| Menu.UpdateCatchesUp | src/main.cpp:876-962 | After updateMenu the acted-on position equals the current one. That position is set to zero when the call's press opened the colour screen from main-menu entry 4 or started editing a colour component; otherwise it is the old position. |
| Menu.UpdateValid | src/main.cpp:802-992 | One call of updateMenu keeps the ranges. |
| Menu.RunValid | src/main.cpp:802-992 | Any sequence of encoder interrupts and updateMenu calls from a valid state keeps the ranges. |
| Menu.UpdateFramed | src/main.cpp:802-992 | Every command one call of updateMenu sends is a framed line. |
| Menu.RunFramed | src/main.cpp:802-992 | Every command sent over any run is a framed line. |
| Console.Firmware.constructor | src/main.cpp:56-121 | At power-on the readings are all zero and the menu state is the initial one, with nothing sent or received and the ranges holding: the menu settings and the gesture code in 0..4. |
| Console.Firmware.UpdateMenu | src/main.cpp:802-992 | The new menu globals and the commands sent are those of `Menu.Update`, and the ranges are kept. |
| Console.Firmware.TurnKnob | src/main.cpp:804-877 | If the encoder moved, acts on the difference as `Menu.Rotated` does, then records the position. |
| Console.Firmware.Rotate | src/main.cpp:806-875 | The screen-dependent effect of a difference, as `Menu.Rotated`. |
| Console.Firmware.TurnMain | src/main.cpp:806-811 | The main menu's branch of `Menu.Rotated`. |
| Console.Firmware.TurnIntakeFan | src/main.cpp:812-820 | The intake screen's branch of `Menu.Rotated`. |
| Console.Firmware.StepIntakeFan | src/main.cpp:814-820 | The speed becomes `Menu.FanTurned` of the old one, and the two intake commands for the new speed are appended. |
| Console.Firmware.TurnExhaustFan | src/main.cpp:821-829 | The exhaust screen's branch of `Menu.Rotated`. |
| Console.Firmware.StepExhaustFan | src/main.cpp:823-829 | The speed becomes `Menu.FanTurned` of the old one, and the fan 3 command is appended. |
| Console.Firmware.TurnRgb | src/main.cpp:830-860 | The colour screen's branch of `Menu.Rotated`. |
| Console.Firmware.TurnRgbCursor | src/main.cpp:831-837 | The component cursor wraps among four entries. |
| Console.Firmware.TurnRgbComponent | src/main.cpp:838-860 | The editing branch of `Menu.Rotated`. |
| Console.Firmware.StepRgbComponent | src/main.cpp:840-859 | The colour settings become `Menu.RgbTurned`, and the colour command with the new components is appended. |
| Console.Firmware.AdjustComponent | src/main.cpp:840-855 | The selected component moves by ten per detent within its range. |
| Console.Firmware.TurnBrake | src/main.cpp:861-874 | The brake screen's branch of `Menu.Rotated`. |
| Console.Firmware.StepBrake | src/main.cpp:864-874 | The brake is engaged exactly on a right turn, and its command is appended. |
| Console.Bounded | src/main.cpp:814-816 | Equals `Menu.Adjusted`: ten per detent, clamped to 0..hi. |
| Console.Wrapped | src/main.cpp:807-809 | Equals `Menu.Wrap`. |
| Console.Firmware.PollButton | src/main.cpp:880-991 | The button state and menu become those of `Menu.ButtonPart`: a debounced HIGH to LOW edge clicks, and the level is recorded. |
| Console.Firmware.Click | src/main.cpp:888-988 | The menu becomes `Menu.Clicked` of the old one. |
| Console.Firmware.ClickMain | src/main.cpp:888-940 | The main menu's branch of `Menu.Clicked`. |
| Console.Firmware.GoBack | src/main.cpp:941-987 | The return to the main menu. |
| Console.Firmware.ClickRgb | src/main.cpp:949-969 | The colour screen's branch of `Menu.Clicked`. |
| Console.Firmware.OpenSelection | src/main.cpp:888-940 | Opens `Menu.Entry` of the cursor as `Menu.Opened` does, or stays put for an out-of-range cursor. |
| Console.Firmware.Open | src/main.cpp:890-935 | A read-only screen opens with nothing else changed. |
| Console.Firmware.OpenIntakeFan | src/main.cpp:896-901 | The intake screen opens at 0 %, unsent, keeping the encoder position. |
| Console.Firmware.OpenExhaustFan | src/main.cpp:902-907 | The exhaust screen opens at 0 %, unsent, keeping the encoder position. |
| Console.Firmware.OpenRgb | src/main.cpp:908-919 | The colour screen opens at its defaults with the encoder zeroed. |
| Console.Firmware.StartRgb | src/main.cpp:909-918 | The colour defaults and the encoder reset are stored. |
| Console.Firmware.OpenBrake | src/main.cpp:935-939 | The brake screen opens released, keeping the encoder position. |
| Layout.StartIndex | src/main.cpp:402-412 | The first visible entry lies in 0..5, and any valid selection falls inside the six-entry window. |
| Layout.SelectionOnThirdRow | src/main.cpp:406-408 | For selections 2..7 the selected entry is on the third row. |
| Layout.WindowAtTheEnds | src/main.cpp:406-412 | Up to selection 2 the window starts at 0; from 7 on it shows the last six entries. |
| Layout.StartIndexMonotone | src/main.cpp:402-412 | Moving the selection down never scrolls the window up. |
| Layout.ProgressFill | src/main.cpp:357 | For 0..100 percent the fill lies within the inner width. It is full at 100 % and empty at 0 %. |
| Layout.ProgressFillMonotone | src/main.cpp:357 | A larger percentage never fills less. |
| CInt.Int32 | src/main.cpp:237 | A value wrapped to a 32-bit int lies in range, and values already in range are unchanged. |
| CInt.Int32MulAdd | src/main.cpp:237 | Wrapping at every accumulation step gives the same result as wrapping once at the end. |
| CInt.CDiv | src/main.cpp:759 | C division by a positive divisor truncates toward zero. |
| CInt.CDivMonotone | src/main.cpp:759 | Truncating division is monotone on non-negative numbers. |
| Decimal.NatToStringRoundTrip | src/main.cpp:763 | The decimal text `print` writes for a number reads back as that number. |
| Decimal.DecimalValueRoundTrip | src/main.cpp:237 | A digit string without leading zeros is the decimal text of its value. |

## Left out

- Drawing: everything sent to the OLED (`draw*` functions, `display.*`) is not modelled. This includes the immediate redraws of the gesture and endstop screens inside readSTM32Data. Only the screen arithmetic of `drawMenu` and `drawProgressBar` is modelled.
- `setup()`, pin configuration, `Serial1.begin` and the main `loop()` scheduling (read intervals, screen refresh intervals, loop delays) are not modelled. The power-on values of the globals are, in the constructor.
- Timing: `delay`, `Serial1.flush` and the 150 ms read timeout are not modelled. The timeout is the end of the input given to a read; the bytes a read consumes are exactly those before it stopped.
- Console.Firmware.PollButton: the two `millis()` reads at line 884 and line 885 are one value `now`.
- Concurrency: `encoderISR` runs between whole updateMenu calls in the model (`Menu.Run`); an interrupt in the middle of updateMenu is not modelled.
- Console.Firmware.EncoderIsr: `encoderPos` is unbounded; its 32-bit overflow after 2^31 detents is not modelled.
- Console.Bounded: `v + diff * 10` is computed in unbounded integers. The C `int` overflow for an encoder difference beyond about 2^31 / 10 detents is not modelled.
- Console.Wrapped: the cursor sums `menuSelection += diff` and `rgbParamSelection += diff` are unbounded; their `int` overflow is not modelled.
- Console.Firmware.TurnKnob: `diff = encoderPos - lastEncoderPos` is an unbounded difference; its `int` overflow when the two positions are more than 2^31 apart is not modelled.
- Floating point: the readings are kept as the raw integers of the reply (tenths); the division by 10.0 into floats is not modelled.
- The debug output on `Serial` (the `Gonderildi` lines, the telemetry summary line) is left out: it does not affect the state.
- The flag `rgbCommandSent` and the two `…SpeedSent` flags are modelled but read by nothing in the core.
