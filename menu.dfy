/** The rotary-encoder menu of the firmware (src/main.cpp, updateMenu and
    encoderISR): turning the knob moves the main-menu cursor or adjusts the
    setting of the open screen and sends the matching command; a debounced
    press of the knob opens a screen or goes back. */
module Menu {
  import opened LineReader
  import opened Commands
  import Decimal
  import Layout

  /** The screens, in the order of `enum MenuState`. */
  datatype Screen =
    | Main | IrTemp | Ntc | IntakeFan | ExhaustFan | RgbLed | Gesture
    | ZRef | YRef | Cvr1Ref | Cvr2Ref | BrakeMotor

  /** The position of a screen in the enumeration. */
  function Ordinal(s: Screen): (k: nat)
    ensures k < 12
    ensures k == 0 <==> s == Main
  {
    match s
    case Main => 0 case IrTemp => 1 case Ntc => 2 case IntakeFan => 3
    case ExhaustFan => 4 case RgbLed => 5 case Gesture => 6 case ZRef => 7
    case YRef => 8 case Cvr1Ref => 9 case Cvr2Ref => 10 case BrakeMotor => 11
  }

  /** A value of `millis()`: an `unsigned long`, 32 bits wide. */
  type Millis = x: int | 0 <= x < 0x1_0000_0000

  /** A press counts only more than this many milliseconds after the last. */
  const DebounceMs: int := 300

  /** Entries of the colour screen: hue, saturation, value and "exit". */
  const RgbEntries: int := 4
  const RgbExit: int := 3

  /** A fan speed in percent and whether it has been sent
      (`fanSpeedPercent`/`fanSpeedSent` and their exhaust counterparts). */
  datatype Fan = Fan(percent: int, sent: bool)

  /** The colour screen's globals: the three components, the component
      being edited, the entry under the cursor, whether a component is being
      edited (`rgbMode`) and whether a command has been sent. */
  datatype Rgb = Rgb(hue: int, saturation: int, value: int,
                     selectedParam: int, paramSelection: int, editing: bool, sent: bool)

  /** The encoder: the interrupt's counter, the position updateMenu last
      acted on, and the clock level the interrupt last saw. */
  datatype Knob = Knob(encoderPos: int, lastEncoderPos: int, lastClk: int)

  /** The push button: the level at the last poll (`lastButtonState`, HIGH
      when released) and the time of the last accepted press. */
  datatype Button = Button(high: bool, lastPress: Millis)

  /** The globals updateMenu and encoderISR read and write. */
  datatype MenuState = MenuState(
    screen: Screen, selection: int,
    intake: Fan, exhaust: Fan, rgb: Rgb, brakeActive: bool,
    knob: Knob, button: Button, screenNeedsUpdate: bool)

  const FanOff: Fan := Fan(0, false)
  const RgbStart: Rgb := Rgb(0, 100, 100, 0, 0, false, false)

  /** The power-on values of those globals; `clk` is the clock level setup()
      reads into `lastCLK`. */
  function Initial(clk: int): MenuState
  {
    MenuState(Main, 0, FanOff, FanOff, RgbStart, false, Knob(0, 0, clk), Button(true, 0), true)
  }

  /** The result of one call: the new globals and the command lines sent. */
  datatype Step = Step(state: MenuState, sent: seq<string>)

  /** A cursor that ran off one end of a list of `count` entries restarts
      at the other end; it is not reduced modulo `count`. */
  function Wrap(v: int, count: int): (r: int)
    requires count >= 1
    ensures 0 <= r < count
    ensures 0 <= v < count ==> r == v
    ensures v < 0 ==> r == count - 1
    ensures v >= count ==> r == 0
  {
    if v < 0 then count - 1 else if v >= count then 0 else v
  }

  /** One detent at a time, the cursor wraps like arithmetic modulo `count`. */
  lemma WrapSingleStep(p: int, diff: int, count: int)
    requires count >= 1 && 0 <= p < count && -1 <= diff <= 1
    ensures Wrap(p + diff, count) == (p + diff) % count
  {
  }

  /** Several detents at once are not taken modulo the menu length: three
      steps down from the tenth entry land on the first entry, not on the
      second, and three up from the second land on the last. */
  lemma WrapIsNotModular()
    ensures Wrap(9 + 3, Layout.MenuItemCount) == 0 && (9 + 3) % Layout.MenuItemCount == 1
    ensures Wrap(1 - 3, Layout.MenuItemCount) == 10 && (1 - 3) % Layout.MenuItemCount == 9
  {
  }

  /** `v` limited to [lo, hi]. */
  function Clamp(v: int, lo: int, hi: int): (r: int)
    requires lo <= hi
    ensures lo <= r <= hi
    ensures lo <= v <= hi ==> r == v
  {
    if v < lo then lo else if v > hi then hi else v
  }

  /** The clamped value is the point of [lo, hi] nearest to `v`. */
  lemma ClampNearest(v: int, lo: int, hi: int, y: int)
    requires lo <= hi && lo <= y <= hi
    ensures var r := Clamp(v, lo, hi);
      (if r >= v then r - v else v - r) <= (if y >= v then y - v else v - y)
  {
  }

  /** A value moved by ten per detent and kept within [0, hi]. */
  function Adjusted(v: int, diff: int, hi: int): (r: int)
    requires hi >= 0
    ensures 0 <= r <= hi
  {
    Clamp(v + diff * 10, 0, hi)
  }

  /** Turning right never lowers a setting, turning left never raises it. */
  lemma AdjustedDirection(v: int, diff: int, hi: int)
    requires 0 <= v <= hi
    ensures diff > 0 ==> Adjusted(v, diff, hi) >= v
    ensures diff < 0 ==> Adjusted(v, diff, hi) <= v
    ensures diff == 0 ==> Adjusted(v, diff, hi) == v
  {
  }

  /** Settings that move in steps of ten stay multiples of ten. */
  lemma AdjustedKeepsTens(v: int, diff: int, hi: int)
    requires hi >= 0 && v % 10 == 0 && hi % 10 == 0
    ensures Adjusted(v, diff, hi) % 10 == 0
  {
    var w := v + diff * 10;
    assert w % 10 == 0 by {
      assert w == (v / 10 + diff) * 10;
    }
  }

  /** A fan screen's knob: ten percent per detent, and the speed counts as
      sent. */
  function FanTurned(f: Fan, diff: int): Fan
  {
    Fan(Adjusted(f.percent, diff, 100), true)
  }

  /** The colour screen's knob: it moves the cursor among the four entries,
      or, while a component is edited, that component. */
  function RgbTurned(c: Rgb, diff: int): Rgb
  {
    if !c.editing then c.(paramSelection := Wrap(c.paramSelection + diff, RgbEntries))
    else
      var c1 :=
        if c.selectedParam == 0 then c.(hue := Adjusted(c.hue, diff, 360))
        else if c.selectedParam == 1 then c.(saturation := Adjusted(c.saturation, diff, 100))
        else if c.selectedParam == 2 then c.(value := Adjusted(c.value, diff, 100))
        else c;
      c1.(sent := true)
  }

  /** The screens on which the knob does something. */
  predicate Interactive(scr: Screen)
  {
    scr in {Main, IntakeFan, ExhaustFan, RgbLed, BrakeMotor}
  }

  /** The encoder part of updateMenu, for a knob that moved by `diff`
      detents since the last call. */
  function Rotated(s: MenuState, diff: int): (r: Step)
    ensures r.state.screen == s.screen && r.state.button == s.button
    ensures r.state.knob == s.knob.(lastEncoderPos := s.knob.encoderPos)
  {
    var r :=
      match s.screen
      case Main => Step(s.(selection := Wrap(s.selection + diff, Layout.MenuItemCount)), [])
      case IntakeFan =>
        var f := FanTurned(s.intake, diff);
        Step(s.(intake := f), IntakeFanCommands(f.percent))
      case ExhaustFan =>
        var f := FanTurned(s.exhaust, diff);
        Step(s.(exhaust := f), ExhaustFanCommands(f.percent))
      case RgbLed =>
        var c := RgbTurned(s.rgb, diff);
        Step(s.(rgb := c), if s.rgb.editing then [RgbCommand(c.hue, c.saturation, c.value)] else [])
      case BrakeMotor =>
        var active := if diff > 0 then true else if diff < 0 then false else s.brakeActive;
        Step(s.(brakeActive := active), [BrakeCommand(active)])
      case _ => Step(s, []);
    var redraw := if Interactive(s.screen) then false else s.screenNeedsUpdate;
    Step(r.state.(knob := s.knob.(lastEncoderPos := s.knob.encoderPos), screenNeedsUpdate := redraw), r.sent)
  }

  /** The screen a main-menu entry opens: the entries are listed in the
      order of the screens that follow Main. */
  function Entry(selection: int): (scr: Screen)
    requires 0 <= selection < Layout.MenuItemCount
    ensures Ordinal(scr) == selection + 1
  {
    if selection == 0 then IrTemp else if selection == 1 then Ntc
    else if selection == 2 then IntakeFan else if selection == 3 then ExhaustFan
    else if selection == 4 then RgbLed else if selection == 5 then Gesture
    else if selection == 6 then ZRef else if selection == 7 then YRef
    else if selection == 8 then Cvr1Ref else if selection == 9 then Cvr2Ref
    else BrakeMotor
  }

  /** Opening a screen from the main menu: the fan, colour and brake
      screens start from their defaults. */
  function Opened(s: MenuState, scr: Screen): MenuState
  {
    var k := s.knob;
    match scr
    case IntakeFan => s.(screen := scr, intake := FanOff, knob := k.(lastEncoderPos := k.encoderPos))
    case ExhaustFan => s.(screen := scr, exhaust := FanOff, knob := k.(lastEncoderPos := k.encoderPos))
    case RgbLed => s.(screen := scr, rgb := RgbStart, knob := k.(encoderPos := 0, lastEncoderPos := 0))
    case BrakeMotor => s.(screen := scr, brakeActive := false, knob := k.(lastEncoderPos := k.encoderPos))
    case _ => s.(screen := scr)
  }

  /** A press on the colour screen. */
  function RgbClicked(s: MenuState): MenuState
  {
    var c := s.rgb;
    if !c.editing then
      if c.paramSelection == RgbExit then s.(screen := Main)
      else
        s.(rgb := c.(selectedParam := c.paramSelection, editing := true, sent := false),
           knob := s.knob.(encoderPos := 0, lastEncoderPos := 0))
    else s.(rgb := c.(editing := false))
  }

  /** The button part of updateMenu, for a press that passed the debounce. */
  function Clicked(s: MenuState): MenuState
  {
    var r :=
      match s.screen
      case Main => if 0 <= s.selection < Layout.MenuItemCount then Opened(s, Entry(s.selection)) else s
      case RgbLed => RgbClicked(s)
      case _ => s.(screen := Main);
    r.(screenNeedsUpdate := false)
  }

  /** `millis() - lastButtonPress` in `unsigned long` arithmetic. */
  function Elapsed(now: Millis, last: Millis): (d: Millis)
    ensures now >= last ==> d == now - last
    ensures now < last ==> d == now - last + 0x1_0000_0000
  {
    (now - last) % 0x1_0000_0000
  }

  /** Whether a poll of the button at time `now` with level `high` is a
      press: a HIGH to LOW edge (the input has a pull-up) more than 300 ms
      after the last press. */
  predicate IsPress(b: Button, high: bool, now: Millis)
  {
    b.high && !high && Elapsed(now, b.lastPress) > DebounceMs
  }

  /** The knob part of updateMenu: it acts only when the encoder moved. */
  function KnobPart(s: MenuState): Step
  {
    if s.knob.encoderPos != s.knob.lastEncoderPos then
      Rotated(s, s.knob.encoderPos - s.knob.lastEncoderPos)
    else Step(s, [])
  }

  /** The button part of updateMenu. */
  function ButtonPart(s: MenuState, high: bool, now: Millis): MenuState
  {
    var t := if IsPress(s.button, high, now) then Clicked(s.(button := s.button.(lastPress := now)))
      else s;
    t.(button := t.button.(high := high))
  }

  /** updateMenu: the knob first, then the button. */
  function Update(s: MenuState, high: bool, now: Millis): Step
  {
    var r := KnobPart(s);
    Step(ButtonPart(r.state, high, now), r.sent)
  }

  /** encoderISR: on a change of the clock line, one detent clockwise when
      the data line differs from the clock, counter-clockwise otherwise. */
  function Turned(k: Knob, clk: int, dt: int): (t: Knob)
    ensures t.encoderPos - k.encoderPos == (if clk == k.lastClk then 0 else if dt != clk then 1 else -1)
    ensures t.lastClk == clk && t.lastEncoderPos == k.lastEncoderPos
  {
    if clk != k.lastClk then
      k.(encoderPos := if dt != clk then k.encoderPos + 1 else k.encoderPos - 1, lastClk := clk)
    else k
  }

  /** A speed within 0..100 percent, in steps of ten. */
  predicate FanValid(f: Fan)
  {
    0 <= f.percent <= 100 && f.percent % 10 == 0
  }

  /** Components within their limits in steps of ten, cursors on entries. */
  predicate RgbValid(c: Rgb)
  {
    0 <= c.hue <= 360 && c.hue % 10 == 0 &&
    0 <= c.saturation <= 100 && c.saturation % 10 == 0 &&
    0 <= c.value <= 100 && c.value % 10 == 0 &&
    0 <= c.selectedParam < RgbExit &&
    0 <= c.paramSelection < RgbEntries
  }

  /** The ranges the settings keep. */
  predicate Valid(s: MenuState)
  {
    0 <= s.selection < Layout.MenuItemCount &&
    FanValid(s.intake) && FanValid(s.exhaust) && RgbValid(s.rgb)
  }

  lemma InitialValid(clk: int)
    ensures Valid(Initial(clk))
  {
  }

  lemma FanTurnedValid(f: Fan, diff: int)
    requires FanValid(f)
    ensures FanValid(FanTurned(f, diff))
  {
    AdjustedKeepsTens(f.percent, diff, 100);
  }

  lemma RgbTurnedValid(c: Rgb, diff: int)
    requires RgbValid(c)
    ensures RgbValid(RgbTurned(c, diff))
  {
    AdjustedKeepsTens(c.hue, diff, 360);
    AdjustedKeepsTens(c.saturation, diff, 100);
    AdjustedKeepsTens(c.value, diff, 100);
  }

  lemma RotatedValid(s: MenuState, diff: int)
    requires Valid(s)
    ensures Valid(Rotated(s, diff).state)
  {
    FanTurnedValid(s.intake, diff);
    FanTurnedValid(s.exhaust, diff);
    RgbTurnedValid(s.rgb, diff);
  }

  lemma ClickedValid(s: MenuState)
    requires Valid(s)
    ensures Valid(Clicked(s))
  {
    if s.screen == Main && 0 <= s.selection < Layout.MenuItemCount {
      assert Valid(Opened(s, Entry(s.selection)));
    }
  }

  /** Every call of updateMenu keeps the ranges. */
  lemma UpdateValid(s: MenuState, high: bool, now: Millis)
    requires Valid(s)
    ensures Valid(Update(s, high, now).state)
  {
    if s.knob.encoderPos != s.knob.lastEncoderPos {
      RotatedValid(s, s.knob.encoderPos - s.knob.lastEncoderPos);
    }
    var r := KnobPart(s).state;
    ClickedValid(r.(button := r.button.(lastPress := now)));
  }

  /** On the main menu the knob moves the cursor, with the wrap above, and
      sends nothing. */
  lemma RotateMain(s: MenuState, diff: int)
    requires s.screen == Main
    ensures var r := Rotated(s, diff);
      r.sent == [] &&
      r.state == s.(selection := Wrap(s.selection + diff, Layout.MenuItemCount),
                    knob := s.knob.(lastEncoderPos := s.knob.encoderPos), screenNeedsUpdate := false)
  {
  }

  /** On the intake fan screen each detent moves the speed by 10 percent
      within 0..100, and both intake fans are sent the duty for the new
      speed, fan 1 first. */
  lemma RotateIntakeFan(s: MenuState, diff: int)
    requires s.screen == IntakeFan
    ensures var r := Rotated(s, diff);
      var p := r.state.intake.percent;
      0 <= p <= 100 && p == Clamp(s.intake.percent + 10 * diff, 0, 100) &&
      r.sent == [FanCommand('1', p), FanCommand('2', p)] &&
      r.state == s.(intake := Fan(p, true), knob := s.knob.(lastEncoderPos := s.knob.encoderPos),
                    screenNeedsUpdate := false)
  {
  }

  /** The exhaust fan screen works the same way with fan 3. */
  lemma RotateExhaustFan(s: MenuState, diff: int)
    requires s.screen == ExhaustFan
    ensures var r := Rotated(s, diff);
      var p := r.state.exhaust.percent;
      0 <= p <= 100 && p == Clamp(s.exhaust.percent + 10 * diff, 0, 100) &&
      r.sent == [FanCommand('3', p)] &&
      r.state == s.(exhaust := Fan(p, true), knob := s.knob.(lastEncoderPos := s.knob.encoderPos),
                    screenNeedsUpdate := false)
  {
  }

  /** While choosing a colour component the knob only moves that choice
      among the four entries, and nothing is sent. */
  lemma RotateRgbNavigate(s: MenuState, diff: int)
    requires s.screen == RgbLed && !s.rgb.editing
    ensures var r := Rotated(s, diff);
      r.sent == [] &&
      r.state == s.(rgb := s.rgb.(paramSelection := Wrap(s.rgb.paramSelection + diff, RgbEntries)),
                    knob := s.knob.(lastEncoderPos := s.knob.encoderPos), screenNeedsUpdate := false)
  {
  }

  /** While editing, the knob changes only the selected component (hue in
      0..360, the others in 0..100) and sends the colour command carrying
      all three components as they now are. */
  lemma RotateRgbEdit(s: MenuState, diff: int)
    requires s.screen == RgbLed && s.rgb.editing && 0 <= s.rgb.selectedParam < RgbExit
    ensures var r := Rotated(s, diff);
      var c, c' := s.rgb, r.state.rgb;
      r.sent == [RgbCommand(c'.hue, c'.saturation, c'.value)] &&
      c'.hue == (if c.selectedParam == 0 then Adjusted(c.hue, diff, 360) else c.hue) &&
      c'.saturation == (if c.selectedParam == 1 then Adjusted(c.saturation, diff, 100) else c.saturation) &&
      c'.value == (if c.selectedParam == 2 then Adjusted(c.value, diff, 100) else c.value) &&
      c' == c.(hue := c'.hue, saturation := c'.saturation, value := c'.value, sent := true) &&
      r.state == s.(rgb := c', knob := s.knob.(lastEncoderPos := s.knob.encoderPos), screenNeedsUpdate := false)
  {
  }

  /** The colour screen's knob, whichever sub-mode it is in. */
  lemma RotateRgb(s: MenuState, diff: int)
    requires s.screen == RgbLed
    ensures var c := RgbTurned(s.rgb, diff);
      Rotated(s, diff) == Step(s.(rgb := c, knob := s.knob.(lastEncoderPos := s.knob.encoderPos),
                                  screenNeedsUpdate := false),
                               if s.rgb.editing then [RgbCommand(c.hue, c.saturation, c.value)] else [])
  {
  }

  /** On the brake screen turning right engages the brake motor and turning
      left releases it; either way the new state is sent. */
  lemma RotateBrake(s: MenuState, diff: int)
    requires s.screen == BrakeMotor && diff != 0
    ensures var r := Rotated(s, diff);
      r.state.brakeActive == (diff > 0) &&
      r.sent == [if diff > 0 then "$B1\r\n" else "$B0\r\n"] &&
      r.state == s.(brakeActive := diff > 0, knob := s.knob.(lastEncoderPos := s.knob.encoderPos),
                    screenNeedsUpdate := false)
  {
  }

  /** On the read-only screens the knob is ignored. */
  lemma RotateReadOnly(s: MenuState, diff: int)
    requires !Interactive(s.screen)
    ensures Rotated(s, diff) == Step(s.(knob := s.knob.(lastEncoderPos := s.knob.encoderPos)), [])
  {
  }

  /** A command line as the firmware frames it: `$`, a printable body and
      CR LF. */
  predicate Framed(cmd: string)
  {
    |cmd| >= 3 && cmd[0] == '$' && cmd[|cmd| - 2..] == "\r\n" && AllPrintable(cmd[1..|cmd| - 2])
  }

  /** Every command of a list is framed. */
  predicate AllFramed(cmds: seq<string>)
  {
    forall cmd <- cmds :: Framed(cmd)
  }

  lemma AllFramedAppend(a: seq<string>, b: seq<string>)
    requires AllFramed(a) && AllFramed(b)
    ensures AllFramed(a + b)
  {
    assert forall cmd <- a + b :: cmd in a || cmd in b;
  }

  lemma IntToStringPrintable(i: int)
    ensures AllPrintable(Decimal.IntToString(i))
  {
    DigitsPrintable(Decimal.NatToString(if i < 0 then -i else i));
  }

  lemma FrameFramed(body: string)
    requires AllPrintable(body)
    ensures Framed(Frame(body))
  {
  }

  /** Every command the knob sends is a framed line. */
  lemma RotatedFramed(s: MenuState, diff: int)
    ensures AllFramed(Rotated(s, diff).sent)
  {
    match s.screen
    case IntakeFan =>
      var v := FanValue(FanTurned(s.intake, diff).percent);
      IntToStringPrintable(v);
      FrameFramed("F1" + Decimal.IntToString(v));
      FrameFramed("F2" + Decimal.IntToString(v));
    case ExhaustFan =>
      var v := FanValue(FanTurned(s.exhaust, diff).percent);
      IntToStringPrintable(v);
      FrameFramed("F3" + Decimal.IntToString(v));
    case RgbLed =>
      var c := RgbTurned(s.rgb, diff);
      IntToStringPrintable(c.hue);
      IntToStringPrintable(c.saturation);
      IntToStringPrintable(c.value);
      FrameFramed("LA" + Decimal.IntToString(c.hue) + "," + Decimal.IntToString(c.saturation) + ","
        + Decimal.IntToString(c.value));
    case BrakeMotor =>
      FrameFramed("B1");
      FrameFramed("B0");
    case _ =>
  }

  /** A press never moves the main-menu cursor. */
  lemma ClickKeepsSelection(s: MenuState)
    ensures Clicked(s).selection == s.selection
  {
  }

  /** From the main menu a press opens the entry under the cursor; the fan,
      colour and brake screens start from their defaults. */
  lemma ClickFromMain(s: MenuState)
    requires s.screen == Main && 0 <= s.selection < Layout.MenuItemCount
    ensures var t := Clicked(s);
      Ordinal(t.screen) == s.selection + 1 &&
      (t.screen == IntakeFan ==> t.intake == FanOff && t.knob.lastEncoderPos == s.knob.encoderPos) &&
      (t.screen == ExhaustFan ==> t.exhaust == FanOff && t.knob.lastEncoderPos == s.knob.encoderPos) &&
      (t.screen == RgbLed ==> t.rgb == RgbStart && t.knob.encoderPos == 0 && t.knob.lastEncoderPos == 0) &&
      (t.screen == BrakeMotor ==> !t.brakeActive && t.knob.lastEncoderPos == s.knob.encoderPos)
  {
  }

  /** From every screen but Main and the colour screen a press returns to
      the main menu and changes nothing else. */
  lemma ClickGoesBack(s: MenuState)
    requires s.screen != Main && s.screen != RgbLed
    ensures Clicked(s) == s.(screen := Main, screenNeedsUpdate := false)
  {
  }

  /** On the colour screen a press on "exit" returns to the main menu, a
      press on a component starts editing it with the knob counted from
      zero, and a press while editing goes back to choosing. */
  lemma ClickRgb(s: MenuState)
    requires s.screen == RgbLed
    ensures var t, c := Clicked(s), s.rgb;
      (!c.editing && c.paramSelection == RgbExit ==> t == s.(screen := Main, screenNeedsUpdate := false)) &&
      (!c.editing && c.paramSelection != RgbExit ==>
        t == s.(rgb := c.(selectedParam := c.paramSelection, editing := true, sent := false),
                knob := s.knob.(encoderPos := 0, lastEncoderPos := 0), screenNeedsUpdate := false)) &&
      (c.editing ==> t == s.(rgb := c.(editing := false), screenNeedsUpdate := false))
  {
  }

  /** Holding the button down gives one press: after any poll that saw it
      LOW, a later poll that sees it LOW is no press, whatever its timing. */
  lemma OnePressPerPush(s: MenuState, now: Millis, later: Millis)
    ensures !IsPress(Update(s, false, now).state.button, false, later)
  {
  }

  /** A press within 300 ms of the previous one is ignored, also when
      `millis()` wrapped around in between. */
  lemma PressesAreDebounced(b: Button, now: Millis)
    requires Elapsed(now, b.lastPress) <= DebounceMs
    ensures !IsPress(b, false, now)
  {
  }

  /** After updateMenu the position it has acted on is the current one, so
      every detent is used once. The position itself is kept, except that a
      press that opens the colour screen from the main menu, or starts
      editing one of its components, restarts it from zero. */
  lemma UpdateCatchesUp(s: MenuState, high: bool, now: Millis)
    ensures var r := KnobPart(s).state;
      var k := Update(s, high, now).state.knob;
      k.lastEncoderPos == k.encoderPos &&
      k.encoderPos ==
        (if IsPress(r.button, high, now) &&
            ((r.screen == Main && r.selection == 4) ||
             (r.screen == RgbLed && !r.rgb.editing && r.rgb.paramSelection != RgbExit))
         then 0 else s.knob.encoderPos)
  {
    var r := KnobPart(s).state;
    assert r.knob.lastEncoderPos == r.knob.encoderPos == s.knob.encoderPos;
  }

  /** An event of the running firmware: an encoder interrupt, or one call
      of updateMenu from the main loop. */
  datatype Event = Interrupt(clk: int, dt: int) | Poll(high: bool, now: Millis)

  /** The menu state after a sequence of events, and every command sent. */
  function Run(s: MenuState, events: seq<Event>): Step
  {
    if events == [] then Step(s, [])
    else
      var r := Run(s, events[..|events| - 1]);
      match events[|events| - 1]
      case Interrupt(clk, dt) => Step(r.state.(knob := Turned(r.state.knob, clk, dt)), r.sent)
      case Poll(high, now) =>
        var u := Update(r.state, high, now);
        Step(u.state, r.sent + u.sent)
  }

  /** The ranges hold after any sequence of events from a valid state. */
  lemma {:induction false} RunValid(s: MenuState, events: seq<Event>)
    requires Valid(s)
    ensures Valid(Run(s, events).state)
    decreases |events|
  {
    if events != [] {
      var front := events[..|events| - 1];
      RunValid(s, front);
      var r := Run(s, front);
      match events[|events| - 1]
      case Interrupt(clk, dt) =>
      case Poll(high, now) => UpdateValid(r.state, high, now);
    }
  }

  /** Every command one call of updateMenu sends is a framed line. */
  lemma UpdateFramed(s: MenuState, high: bool, now: Millis)
    ensures AllFramed(Update(s, high, now).sent)
  {
    if s.knob.encoderPos != s.knob.lastEncoderPos {
      RotatedFramed(s, s.knob.encoderPos - s.knob.lastEncoderPos);
    }
  }

  /** Everything the menu ever sends is a framed command line. */
  lemma {:induction false} RunFramed(s: MenuState, events: seq<Event>)
    ensures AllFramed(Run(s, events).sent)
    decreases |events|
  {
    if events != [] {
      var front := events[..|events| - 1];
      RunFramed(s, front);
      var r := Run(s, front);
      match events[|events| - 1]
      case Interrupt(clk, dt) =>
      case Poll(high, now) =>
        UpdateFramed(r.state, high, now);
        AllFramedAppend(r.sent, Update(r.state, high, now).sent);
    }
  }
}
