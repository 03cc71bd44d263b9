/** The firmware's globals and the routines of src/main.cpp that update
    them in place: readSTM32Data, encoderISR and updateMenu with its send
    functions. Each routine is proved to have the effect of the value-level
    definitions in the Telemetry and Menu modules. The serial link is two
    fields: `tx`, the command lines written so far, and `rx`, the bytes
    received but not yet read. */
module Console {
  import opened CInt
  import opened Decimal
  import opened LineReader
  import opened Tokenizer
  import opened Commands
  import T = Telemetry
  import M = Menu
  import Layout

  /** A setting moved by ten per detent, then held within 0..hi by the two
      tests updateMenu makes after every such step. */
  method Bounded(v: int, diff: int, hi: int) returns (r: int)
    requires hi >= 0
    ensures r == M.Adjusted(v, diff, hi)
  {
    r := v + diff * 10;
    if r < 0 { r := 0; }
    if r > hi { r := hi; }
  }

  /** A cursor moved past either end of `count` entries, put back at the
      other end by the two tests updateMenu makes. */
  method Wrapped(v: int, count: int) returns (r: int)
    requires count >= 1
    ensures r == M.Wrap(v, count)
  {
    r := v;
    if r < 0 { r := count - 1; }
    if r > count - 1 { r := 0; }
  }

  class Firmware {
    // Telemetry, as raw tenths (mcu_load_raw ... cvr2_tmc_status_stop_l).
    var mcuLoad: int
    var pcbTemp: int
    var plateTemp: int
    var resinTemp: int
    var intake1Fan: int
    var intake2Fan: int
    var exhaustFan: int
    var gestureType: int
    var zStopR: int
    var yStopR: int
    var yStopL: int
    var cvr1StopR: int
    var cvr1StopL: int
    var cvr2StopR: int
    var cvr2StopL: int

    // The menu.
    var currentMenu: M.Screen
    var menuSelection: int
    var screenNeedsUpdate: bool
    var fanSpeedPercent: int
    var fanSpeedSent: bool
    var exhaustFanSpeedPercent: int
    var exhaustFanSpeedSent: bool
    var rgbHue: int
    var rgbSaturation: int
    var rgbValue: int
    var rgbSelectedParam: int
    var rgbParamSelection: int
    var rgbMode: bool
    var rgbCommandSent: bool
    var brakeMotorActive: bool

    // The encoder and the button.
    var encoderPos: int
    var lastEncoderPos: int
    var lastClk: int
    var lastButtonState: bool
    var lastButtonPress: M.Millis

    // The serial link to the STM32 board.
    var tx: seq<string>
    var rx: string

    /** The telemetry globals as a value. */
    function Readings(): T.Readings
      reads this
    {
      T.Readings(mcuLoad, pcbTemp, plateTemp, resinTemp, intake1Fan, intake2Fan, exhaustFan,
                 gestureType, zStopR, yStopR, yStopL, cvr1StopR, cvr1StopL, cvr2StopR, cvr2StopL)
    }

    /** The menu globals as a value. */
    function MenuView(): M.MenuState
      reads this
    {
      M.MenuState(currentMenu, menuSelection,
        M.Fan(fanSpeedPercent, fanSpeedSent), M.Fan(exhaustFanSpeedPercent, exhaustFanSpeedSent),
        M.Rgb(rgbHue, rgbSaturation, rgbValue, rgbSelectedParam, rgbParamSelection, rgbMode, rgbCommandSent),
        brakeMotorActive,
        M.Knob(encoderPos, lastEncoderPos, lastClk), M.Button(lastButtonState, lastButtonPress),
        screenNeedsUpdate)
    }

    function IntakeView(): M.Fan
      reads this
    {
      M.Fan(fanSpeedPercent, fanSpeedSent)
    }

    function ExhaustView(): M.Fan
      reads this
    {
      M.Fan(exhaustFanSpeedPercent, exhaustFanSpeedSent)
    }

    function RgbView(): M.Rgb
      reads this
    {
      M.Rgb(rgbHue, rgbSaturation, rgbValue, rgbSelectedParam, rgbParamSelection, rgbMode, rgbCommandSent)
    }

    function KnobView(): M.Knob
      reads this
    {
      M.Knob(encoderPos, lastEncoderPos, lastClk)
    }

    function ButtonView(): M.Button
      reads this
    {
      M.Button(lastButtonState, lastButtonPress)
    }

    /** The ranges the menu settings keep: `M.Valid` of the globals it
        reads. */
    predicate SettingsValid()
      reads this`menuSelection, this`fanSpeedPercent, this`fanSpeedSent
      reads this`exhaustFanSpeedPercent, this`exhaustFanSpeedSent
      reads this`rgbHue, this`rgbSaturation, this`rgbValue, this`rgbSelectedParam
      reads this`rgbParamSelection, this`rgbMode, this`rgbCommandSent
    {
      0 <= menuSelection < Layout.MenuItemCount &&
      M.FanValid(M.Fan(fanSpeedPercent, fanSpeedSent)) &&
      M.FanValid(M.Fan(exhaustFanSpeedPercent, exhaustFanSpeedSent)) &&
      M.RgbValid(M.Rgb(rgbHue, rgbSaturation, rgbValue, rgbSelectedParam, rgbParamSelection, rgbMode, rgbCommandSent))
    }

    /** The ranges the menu settings and the stored gesture code keep. */
    predicate Valid()
      reads this
    {
      SettingsValid() && T.GestureNone <= gestureType <= T.GestureRight
    }

    /** The globals at power-on; `clk` is the encoder clock level setup()
        reads. */
    constructor (clk: int)
      ensures Readings() == T.Initial && MenuView() == M.Initial(clk)
      ensures tx == [] && rx == [] && Valid()
    {
      mcuLoad, pcbTemp, plateTemp, resinTemp := 0, 0, 0, 0;
      intake1Fan, intake2Fan, exhaustFan := 0, 0, 0;
      gestureType := T.GestureNone;
      zStopR, yStopR, yStopL := 0, 0, 0;
      cvr1StopR, cvr1StopL, cvr2StopR, cvr2StopL := 0, 0, 0, 0;
      currentMenu, menuSelection, screenNeedsUpdate := M.Main, 0, true;
      fanSpeedPercent, fanSpeedSent := 0, false;
      exhaustFanSpeedPercent, exhaustFanSpeedSent := 0, false;
      rgbHue, rgbSaturation, rgbValue := 0, 100, 100;
      rgbSelectedParam, rgbParamSelection, rgbMode, rgbCommandSent := 0, 0, false, false;
      brakeMotorActive := false;
      encoderPos, lastEncoderPos, lastClk := 0, 0, clk;
      lastButtonState, lastButtonPress := true, 0;
      tx, rx := [], [];
      M.InitialValid(clk);
      T.InitialGestureInRange();
    }

    /** readSTM32Data: send the query, read one line of what has arrived,
        and store the values of an accepted reply. The readings are those
        the staged update computes, the screen is marked for redrawing when
        the reply held four values or more, nothing else changes, and the
        ranges (the stored gesture code among them) are kept. */
    method ReadSTM32Data(arriving: string)
      modifies this`tx, this`rx, this`screenNeedsUpdate
      modifies this`mcuLoad, this`pcbTemp, this`plateTemp, this`resinTemp
      modifies this`intake1Fan, this`intake2Fan, this`exhaustFan, this`gestureType
      modifies this`zStopR, this`yStopR, this`yStopL, this`cvr1StopR, this`cvr1StopL, this`cvr2StopR, this`cvr2StopL
      ensures var read := ReadLine(old(rx) + arriving);
        var reply := T.Reply(read);
        tx == old(tx) + [Query] && rx == read.rest &&
        Readings() == T.Received(old(Readings()), reply) &&
        screenNeedsUpdate == (old(screenNeedsUpdate) || T.Refreshes(reply))
      ensures old(Valid()) ==> Valid()
    {
      Exchange(arriving);
      assert SettingsValid() == old(SettingsValid());
    }

    /** The query, the line read and the update of readSTM32Data. */
    method Exchange(arriving: string)
      modifies this`tx, this`rx, this`screenNeedsUpdate
      modifies this`mcuLoad, this`pcbTemp, this`plateTemp, this`resinTemp
      modifies this`intake1Fan, this`intake2Fan, this`exhaustFan, this`gestureType
      modifies this`zStopR, this`yStopR, this`yStopL, this`cvr1StopR, this`cvr1StopL, this`cvr2StopR, this`cvr2StopL
      ensures var read := ReadLine(old(rx) + arriving);
        var reply := T.Reply(read);
        tx == old(tx) + [Query] && rx == read.rest &&
        Readings() == T.Received(old(Readings()), reply) &&
        screenNeedsUpdate == (old(screenNeedsUpdate) || T.Refreshes(reply))
      ensures T.GestureNone <= old(gestureType) <= T.GestureRight ==> T.GestureNone <= gestureType <= T.GestureRight
    {
      tx := tx + [Query];
      var read := AssembleLine(rx + arriving);
      rx := read.rest;
      if !read.Line? || read.text == [] {
        return;
      }
      if read.text[0] != '$' {
        return;
      }
      var values := ParseValues(read.text);
      StoreValues(values);
    }

    /** The update stage of readSTM32Data. */
    method StoreValues(values: seq<int>)
      requires |values| <= MaxValues
      modifies this`screenNeedsUpdate
      modifies this`mcuLoad, this`pcbTemp, this`plateTemp, this`resinTemp
      modifies this`intake1Fan, this`intake2Fan, this`exhaustFan, this`gestureType
      modifies this`zStopR, this`yStopR, this`yStopL, this`cvr1StopR, this`cvr1StopL, this`cvr2StopR, this`cvr2StopL
      ensures Readings() == T.Apply(old(Readings()), values)
      ensures screenNeedsUpdate == (old(screenNeedsUpdate) || |values| >= 4)
      ensures T.GestureNone <= old(gestureType) <= T.GestureRight ==> T.GestureNone <= gestureType <= T.GestureRight
    {
      if |values| >= 4 {
        StoreLoad(values);
        StoreFans(values);
        StoreGesture(values);
        StoreStops(values);
        screenNeedsUpdate := true;
      }
    }

    method StoreLoad(values: seq<int>)
      requires |values| >= 4
      modifies this`mcuLoad, this`pcbTemp, this`plateTemp, this`resinTemp
      ensures Readings() == T.LoadStage(old(Readings()), values)
    {
      mcuLoad, pcbTemp, plateTemp, resinTemp := values[0], values[1], values[2], values[3];
    }

    method StoreFans(values: seq<int>)
      modifies this`intake1Fan, this`intake2Fan, this`exhaustFan
      ensures Readings() == T.FansStage(old(Readings()), values)
    {
      if |values| >= 7 {
        intake1Fan, intake2Fan, exhaustFan := values[4], values[5], values[6];
      }
    }

    method StoreGesture(values: seq<int>)
      modifies this`gestureType
      ensures Readings() == T.GestureStage(old(Readings()), values)
      ensures T.GestureNone <= old(gestureType) <= T.GestureRight ==> T.GestureNone <= gestureType <= T.GestureRight
    {
      if |values| >= 8 {
        gestureType := values[7];
        if gestureType < T.GestureNone || gestureType > T.GestureRight {
          gestureType := T.GestureNone;
        }
      }
    }

    method StoreStops(values: seq<int>)
      requires |values| <= MaxValues
      modifies this`zStopR, this`yStopR, this`yStopL, this`cvr1StopR, this`cvr1StopL, this`cvr2StopR, this`cvr2StopL
      ensures Readings() == T.StopsStage(old(Readings()), values)
    {
      if |values| >= 9 {
        StoreAxisStops(values);
        StoreCoverStops(values);
      }
    }

    method StoreAxisStops(values: seq<int>)
      requires |values| >= 9
      modifies this`zStopR, this`yStopR, this`yStopL
      ensures Readings() == T.AxisStops(old(Readings()), values)
    {
      var n := |values|;
      zStopR := values[8];
      if n >= 10 { yStopR := values[9]; }
      if n >= 11 { yStopL := values[10]; }
    }

    method StoreCoverStops(values: seq<int>)
      requires |values| <= MaxValues
      modifies this`cvr1StopR, this`cvr1StopL, this`cvr2StopR, this`cvr2StopL
      ensures Readings() == T.CoverStops(old(Readings()), values)
    {
      var n := |values|;
      if n >= 12 { cvr1StopR := values[11]; }
      if n >= 13 { cvr1StopL := values[12]; }
      if n >= 14 { cvr2StopR := values[13]; }
      if n >= 15 { cvr2StopL := values[14]; }
    }

    /** encoderISR: one detent per change of the clock line. */
    method EncoderIsr(clk: int, dt: int)
      modifies this`encoderPos, this`lastClk
      ensures KnobView() == M.Turned(old(KnobView()), clk, dt)
    {
      if clk != lastClk {
        if dt != clk {
          encoderPos := encoderPos + 1;
        } else {
          encoderPos := encoderPos - 1;
        }
        lastClk := clk;
      }
    }

    /** sendIntakeFanCommand: the duty for the intake speed to fans 1 and 2. */
    method SendIntakeFanCommand()
      modifies this`tx, this`fanSpeedSent
      ensures tx == old(tx) + IntakeFanCommands(fanSpeedPercent) && fanSpeedSent
    {
      var v := FanValue(fanSpeedPercent);
      var first := "$F1" + IntToString(v) + "\r\n";
      tx := tx + [first];
      var second := "$F2" + IntToString(v) + "\r\n";
      tx := tx + [second];
      fanSpeedSent := true;
      FanCommandText('1', fanSpeedPercent);
      FanCommandText('2', fanSpeedPercent);
      assert "$F1" == "$F" + ['1'] && "$F2" == "$F" + ['2'];
      assert tx == old(tx) + [first, second];
    }

    /** sendExhaustFanCommand: the duty for the exhaust speed to fan 3. */
    method SendExhaustFanCommand()
      modifies this`tx, this`exhaustFanSpeedSent
      ensures tx == old(tx) + ExhaustFanCommands(exhaustFanSpeedPercent) && exhaustFanSpeedSent
    {
      var v := FanValue(exhaustFanSpeedPercent);
      tx := tx + ["$F3" + IntToString(v) + "\r\n"];
      exhaustFanSpeedSent := true;
      FanCommandText('3', exhaustFanSpeedPercent);
      assert "$F3" == "$F" + ['3'];
    }

    /** sendRGBLedCommand: the three colour components. */
    method SendRgbLedCommand()
      modifies this`tx, this`rgbCommandSent
      ensures tx == old(tx) + [RgbCommand(rgbHue, rgbSaturation, rgbValue)] && rgbCommandSent
    {
      tx := tx + ["$LA" + IntToString(rgbHue) + "," + IntToString(rgbSaturation) + ","
        + IntToString(rgbValue) + "\r\n"];
      rgbCommandSent := true;
      RgbCommandText(rgbHue, rgbSaturation, rgbValue);
    }

    /** sendBrakeMotorCommand. */
    method SendBrakeMotorCommand(active: bool)
      modifies this`tx
      ensures tx == old(tx) + [BrakeCommand(active)]
    {
      if active {
        tx := tx + ["$B1\r\n"];
      } else {
        tx := tx + ["$B0\r\n"];
      }
    }

    /** The encoder part of updateMenu: act on the detents turned since the
        last call, then record the position acted on. */
    method TurnKnob()
      modifies this`tx, this`screenNeedsUpdate, this`menuSelection, this`lastEncoderPos, this`brakeMotorActive
      modifies this`fanSpeedPercent, this`fanSpeedSent, this`exhaustFanSpeedPercent, this`exhaustFanSpeedSent
      modifies this`rgbHue, this`rgbSaturation, this`rgbValue, this`rgbParamSelection, this`rgbCommandSent
      ensures var r := M.KnobPart(old(MenuView()));
        MenuView() == r.state && tx == old(tx) + r.sent
    {
      if encoderPos != lastEncoderPos {
        ghost var s := MenuView();
        var diff := encoderPos - lastEncoderPos;
        Rotate(diff);
        ghost var r := M.Rotated(s, diff);
        assert MenuView() == r.state.(knob := s.knob);
        lastEncoderPos := encoderPos;
        assert KnobView() == r.state.knob;
      }
    }

    /** The screen-dependent effect of `diff` detents: the menu state and
        the commands of the menu's rotation step, with the encoder fields
        left to the caller. */
    twostate predicate Rotation(diff: int)
      reads this
    {
      var r := M.Rotated(old(MenuView()), diff);
      MenuView() == r.state.(knob := old(KnobView())) && tx == old(tx) + r.sent
    }

    method Rotate(diff: int)
      requires diff != 0
      modifies this`tx, this`screenNeedsUpdate, this`menuSelection, this`brakeMotorActive
      modifies this`fanSpeedPercent, this`fanSpeedSent, this`exhaustFanSpeedPercent, this`exhaustFanSpeedSent
      modifies this`rgbHue, this`rgbSaturation, this`rgbValue, this`rgbParamSelection, this`rgbCommandSent
      ensures Rotation(diff)
    {
      if currentMenu == M.Main {
        TurnMain(diff);
      } else if currentMenu == M.IntakeFan {
        TurnIntakeFan(diff);
      } else if currentMenu == M.ExhaustFan {
        TurnExhaustFan(diff);
      } else if currentMenu == M.RgbLed {
        TurnRgb(diff);
      } else if currentMenu == M.BrakeMotor {
        TurnBrake(diff);
      } else {
        M.RotateReadOnly(MenuView(), diff);
      }
    }

    /** The main menu's branch: move the cursor, wrapping at the ends. */
    method TurnMain(diff: int)
      requires currentMenu == M.Main
      modifies this`menuSelection, this`screenNeedsUpdate
      ensures Rotation(diff)
    {
      ghost var s := MenuView();
      var selection := Wrapped(menuSelection + diff, Layout.MenuItemCount);
      menuSelection := selection;
      screenNeedsUpdate := false;
      M.RotateMain(s, diff);
    }

    /** The intake fan screen's branch. */
    method TurnIntakeFan(diff: int)
      requires currentMenu == M.IntakeFan
      modifies this`tx, this`fanSpeedPercent, this`fanSpeedSent, this`screenNeedsUpdate
      ensures Rotation(diff)
    {
      ghost var s := MenuView();
      StepIntakeFan(diff);
      M.RotateIntakeFan(s, diff);
    }

    /** Ten percent per detent within 0..100, both intake fans told the new
        duty. */
    method StepIntakeFan(diff: int)
      modifies this`tx, this`fanSpeedPercent, this`fanSpeedSent, this`screenNeedsUpdate
      ensures IntakeView() == M.FanTurned(old(IntakeView()), diff) && !screenNeedsUpdate
      ensures tx == old(tx) + IntakeFanCommands(fanSpeedPercent)
    {
      var percent := Bounded(fanSpeedPercent, diff, 100);
      fanSpeedPercent := percent;
      SendIntakeFanCommand();
      screenNeedsUpdate := false;
    }

    /** The exhaust fan screen's branch. */
    method TurnExhaustFan(diff: int)
      requires currentMenu == M.ExhaustFan
      modifies this`tx, this`exhaustFanSpeedPercent, this`exhaustFanSpeedSent, this`screenNeedsUpdate
      ensures Rotation(diff)
    {
      ghost var s := MenuView();
      StepExhaustFan(diff);
      M.RotateExhaustFan(s, diff);
    }

    /** Ten percent per detent within 0..100, the exhaust fan told the new
        duty. */
    method StepExhaustFan(diff: int)
      modifies this`tx, this`exhaustFanSpeedPercent, this`exhaustFanSpeedSent, this`screenNeedsUpdate
      ensures ExhaustView() == M.FanTurned(old(ExhaustView()), diff) && !screenNeedsUpdate
      ensures tx == old(tx) + ExhaustFanCommands(exhaustFanSpeedPercent)
    {
      var percent := Bounded(exhaustFanSpeedPercent, diff, 100);
      exhaustFanSpeedPercent := percent;
      SendExhaustFanCommand();
      screenNeedsUpdate := false;
    }

    /** The colour screen's branch: move the cursor, or change the component
        being edited and send the colour. */
    method TurnRgb(diff: int)
      requires currentMenu == M.RgbLed
      modifies this`tx, this`rgbHue, this`rgbSaturation, this`rgbValue, this`rgbParamSelection, this`rgbCommandSent
      modifies this`screenNeedsUpdate
      ensures Rotation(diff)
    {
      if !rgbMode {
        TurnRgbCursor(diff);
      } else {
        TurnRgbComponent(diff);
      }
    }

    /** Choosing a component: the cursor moves among the four entries. */
    method TurnRgbCursor(diff: int)
      requires currentMenu == M.RgbLed && !rgbMode
      modifies this`rgbParamSelection, this`screenNeedsUpdate
      ensures Rotation(diff)
    {
      ghost var s := MenuView();
      var selection := Wrapped(rgbParamSelection + diff, M.RgbEntries);
      rgbParamSelection := selection;
      screenNeedsUpdate := false;
      M.RotateRgb(s, diff);
    }

    /** Editing a component. */
    method TurnRgbComponent(diff: int)
      requires currentMenu == M.RgbLed && rgbMode
      modifies this`tx, this`rgbHue, this`rgbSaturation, this`rgbValue, this`rgbCommandSent
      modifies this`screenNeedsUpdate
      ensures Rotation(diff)
    {
      ghost var s := MenuView();
      StepRgbComponent(diff);
      M.RotateRgb(s, diff);
    }

    /** The edited component moves by ten per detent within its range, and
        the colour is sent. */
    method StepRgbComponent(diff: int)
      requires rgbMode
      modifies this`tx, this`rgbHue, this`rgbSaturation, this`rgbValue, this`rgbCommandSent
      modifies this`screenNeedsUpdate
      ensures RgbView() == M.RgbTurned(old(RgbView()), diff) && !screenNeedsUpdate
      ensures tx == old(tx) + [RgbCommand(rgbHue, rgbSaturation, rgbValue)]
    {
      AdjustComponent(diff);
      SendRgbLedCommand();
      screenNeedsUpdate := false;
    }

    /** The selected component moves by ten per detent within its range. */
    method AdjustComponent(diff: int)
      requires rgbMode
      modifies this`rgbHue, this`rgbSaturation, this`rgbValue
      ensures M.RgbTurned(old(RgbView()), diff) == RgbView().(sent := true)
    {
      if rgbSelectedParam == 0 {
        rgbHue := Bounded(rgbHue, diff, 360);
      } else if rgbSelectedParam == 1 {
        rgbSaturation := Bounded(rgbSaturation, diff, 100);
      } else if rgbSelectedParam == 2 {
        rgbValue := Bounded(rgbValue, diff, 100);
      }
    }

    /** The brake screen's branch. */
    method TurnBrake(diff: int)
      requires currentMenu == M.BrakeMotor && diff != 0
      modifies this`tx, this`brakeMotorActive, this`screenNeedsUpdate
      ensures Rotation(diff)
    {
      ghost var s := MenuView();
      StepBrake(diff);
      M.RotateBrake(s, diff);
    }

    /** Turning right engages the brake, turning left releases it, and the
        state is sent. */
    method StepBrake(diff: int)
      requires diff != 0
      modifies this`tx, this`brakeMotorActive, this`screenNeedsUpdate
      ensures brakeMotorActive == (diff > 0) && !screenNeedsUpdate
      ensures tx == old(tx) + [BrakeCommand(brakeMotorActive)]
    {
      if diff > 0 {
        brakeMotorActive := true;
      } else if diff < 0 {
        brakeMotorActive := false;
      }
      SendBrakeMotorCommand(brakeMotorActive);
      screenNeedsUpdate := false;
    }

    /** The button part of updateMenu: a debounced HIGH to LOW edge opens
        the entry under the cursor or goes back, then the level is kept for
        the next poll. */
    method PollButton(high: bool, now: M.Millis)
      modifies this`currentMenu, this`screenNeedsUpdate, this`brakeMotorActive
      modifies this`fanSpeedPercent, this`fanSpeedSent, this`exhaustFanSpeedPercent, this`exhaustFanSpeedSent
      modifies this`rgbHue, this`rgbSaturation, this`rgbValue, this`rgbSelectedParam, this`rgbParamSelection
      modifies this`rgbMode, this`rgbCommandSent
      modifies this`encoderPos, this`lastEncoderPos, this`lastButtonState, this`lastButtonPress
      ensures MenuView() == M.ButtonPart(old(MenuView()), high, now)
    {
      if lastButtonState && !high && M.Elapsed(now, lastButtonPress) > M.DebounceMs {
        lastButtonPress := now;
        Click();
      }
      lastButtonState := high;
    }

    /** The effect of a press that passed the debounce. */
    twostate predicate Clicking()
      reads this
    {
      MenuView() == M.Clicked(old(MenuView()))
    }

    /** A press: the main menu opens the entry under the cursor, the colour
        screen handles its own press, every other screen goes back to the
        main menu; in each case the screen is not marked for redrawing. */
    method Click()
      modifies this`currentMenu, this`screenNeedsUpdate, this`brakeMotorActive
      modifies this`fanSpeedPercent, this`fanSpeedSent, this`exhaustFanSpeedPercent, this`exhaustFanSpeedSent
      modifies this`rgbHue, this`rgbSaturation, this`rgbValue, this`rgbSelectedParam, this`rgbParamSelection
      modifies this`rgbMode, this`rgbCommandSent, this`encoderPos, this`lastEncoderPos
      ensures Clicking()
    {
      if currentMenu == M.Main {
        ClickMain();
      } else if currentMenu == M.RgbLed {
        ClickRgb();
      } else {
        GoBack();
      }
    }

    method ClickMain()
      requires currentMenu == M.Main
      modifies this`currentMenu, this`screenNeedsUpdate, this`brakeMotorActive
      modifies this`fanSpeedPercent, this`fanSpeedSent, this`exhaustFanSpeedPercent, this`exhaustFanSpeedSent
      modifies this`rgbHue, this`rgbSaturation, this`rgbValue, this`rgbSelectedParam, this`rgbParamSelection
      modifies this`rgbMode, this`rgbCommandSent, this`encoderPos, this`lastEncoderPos
      ensures Clicking()
    {
      OpenSelection();
      screenNeedsUpdate := false;
    }

    method GoBack()
      requires currentMenu != M.Main && currentMenu != M.RgbLed
      modifies this`currentMenu, this`screenNeedsUpdate
      ensures Clicking()
    {
      currentMenu := M.Main;
      screenNeedsUpdate := false;
    }

    /** A press on the colour screen: leave it from the exit entry, start
        editing the chosen component, or stop editing. */
    method ClickRgb()
      requires currentMenu == M.RgbLed
      modifies this`currentMenu, this`rgbSelectedParam, this`rgbMode, this`rgbCommandSent
      modifies this`encoderPos, this`lastEncoderPos, this`screenNeedsUpdate
      ensures Clicking()
    {
      if !rgbMode {
        if rgbParamSelection == M.RgbExit {
          currentMenu := M.Main;
        } else {
          rgbSelectedParam := rgbParamSelection;
          rgbMode := true;
          rgbCommandSent := false;
          encoderPos := 0;
          lastEncoderPos := 0;
        }
      } else {
        rgbMode := false;
      }
      screenNeedsUpdate := false;
    }

    /** Opening `scr` from the main menu. */
    twostate predicate Opening(scr: M.Screen)
      reads this
    {
      MenuView() == M.Opened(old(MenuView()), scr)
    }

    /** A press on the main menu: open the screen under the cursor. */
    method OpenSelection()
      modifies this`currentMenu, this`brakeMotorActive
      modifies this`fanSpeedPercent, this`fanSpeedSent, this`exhaustFanSpeedPercent, this`exhaustFanSpeedSent
      modifies this`rgbHue, this`rgbSaturation, this`rgbValue, this`rgbSelectedParam, this`rgbParamSelection
      modifies this`rgbMode, this`rgbCommandSent, this`encoderPos, this`lastEncoderPos
      ensures var s := old(MenuView());
        MenuView() == if 0 <= s.selection < Layout.MenuItemCount then M.Opened(s, M.Entry(s.selection)) else s
    {
      if menuSelection == 0 {
        Open(M.IrTemp);
      } else if menuSelection == 1 {
        Open(M.Ntc);
      } else if menuSelection == 2 {
        OpenIntakeFan();
      } else if menuSelection == 3 {
        OpenExhaustFan();
      } else if menuSelection == 4 {
        OpenRgb();
      } else if menuSelection == 5 {
        Open(M.Gesture);
      } else if menuSelection == 6 {
        Open(M.ZRef);
      } else if menuSelection == 7 {
        Open(M.YRef);
      } else if menuSelection == 8 {
        Open(M.Cvr1Ref);
      } else if menuSelection == 9 {
        Open(M.Cvr2Ref);
      } else if menuSelection == 10 {
        OpenBrake();
      }
    }

    /** A screen that only shows readings: nothing but the screen changes. */
    method Open(scr: M.Screen)
      requires scr != M.IntakeFan && scr != M.ExhaustFan && scr != M.RgbLed && scr != M.BrakeMotor
      modifies this`currentMenu
      ensures Opening(scr)
    {
      currentMenu := scr;
    }

    /** The intake fan screen starts at 0 %, not yet sent, with the knob
        position taken as the starting point. */
    method OpenIntakeFan()
      modifies this`currentMenu, this`fanSpeedPercent, this`fanSpeedSent, this`lastEncoderPos
      ensures Opening(M.IntakeFan)
    {
      currentMenu := M.IntakeFan;
      fanSpeedPercent, fanSpeedSent := 0, false;
      lastEncoderPos := encoderPos;
    }

    /** The exhaust fan screen likewise. */
    method OpenExhaustFan()
      modifies this`currentMenu, this`exhaustFanSpeedPercent, this`exhaustFanSpeedSent, this`lastEncoderPos
      ensures Opening(M.ExhaustFan)
    {
      currentMenu := M.ExhaustFan;
      exhaustFanSpeedPercent, exhaustFanSpeedSent := 0, false;
      lastEncoderPos := encoderPos;
    }

    /** The colour screen starts from red at full saturation and value, the
        cursor on the hue, and the encoder reset to zero. */
    method OpenRgb()
      modifies this`currentMenu, this`rgbHue, this`rgbSaturation, this`rgbValue, this`rgbSelectedParam
      modifies this`rgbParamSelection, this`rgbMode, this`rgbCommandSent, this`encoderPos, this`lastEncoderPos
      ensures Opening(M.RgbLed)
    {
      StartRgb();
    }

    /** The colour settings the colour screen starts from, and the encoder
        counted from zero. */
    method StartRgb()
      modifies this`currentMenu, this`rgbHue, this`rgbSaturation, this`rgbValue, this`rgbSelectedParam
      modifies this`rgbParamSelection, this`rgbMode, this`rgbCommandSent, this`encoderPos, this`lastEncoderPos
      ensures currentMenu == M.RgbLed && RgbView() == M.RgbStart && encoderPos == 0 && lastEncoderPos == 0
    {
      currentMenu := M.RgbLed;
      rgbHue, rgbSaturation, rgbValue := 0, 100, 100;
      rgbSelectedParam, rgbParamSelection, rgbMode, rgbCommandSent := 0, 0, false, false;
      encoderPos, lastEncoderPos := 0, 0;
    }

    /** The brake screen starts released. */
    method OpenBrake()
      modifies this`currentMenu, this`brakeMotorActive, this`lastEncoderPos
      ensures Opening(M.BrakeMotor)
    {
      currentMenu := M.BrakeMotor;
      brakeMotorActive := false;
      lastEncoderPos := encoderPos;
    }

    /** updateMenu: the encoder part, then the button part. The new menu
        state and the commands sent are those of the menu's step function,
        and the setting ranges are kept. */
    method UpdateMenu(high: bool, now: M.Millis)
      modifies this`tx, this`currentMenu, this`menuSelection, this`screenNeedsUpdate, this`brakeMotorActive
      modifies this`fanSpeedPercent, this`fanSpeedSent, this`exhaustFanSpeedPercent, this`exhaustFanSpeedSent
      modifies this`rgbHue, this`rgbSaturation, this`rgbValue, this`rgbSelectedParam, this`rgbParamSelection
      modifies this`rgbMode, this`rgbCommandSent
      modifies this`encoderPos, this`lastEncoderPos, this`lastButtonState, this`lastButtonPress
      ensures var u := M.Update(old(MenuView()), high, now);
        MenuView() == u.state && tx == old(tx) + u.sent
      ensures old(Valid()) ==> Valid()
    {
      ghost var s := MenuView();
      TurnKnob();
      PollButton(high, now);
      if M.Valid(s) {
        M.UpdateValid(s, high, now);
      }
      assert gestureType == old(gestureType);
    }
  }
}
