/** The command lines the firmware sends to the STM32 board over its
    serial link (src/main.cpp: the query in readSTM32Data and the send*Command
    functions). Every command is `$`, a name, optional decimal arguments and
    CR LF; `Serial1.print(int)` writes an `int` in decimal with a leading
    minus sign when negative. */
module Commands {
  import opened CInt
  import opened Decimal
  import opened LineReader
  import opened Tokenizer

  /** `$` + body + CR LF. */
  function Frame(body: string): (cmd: string)
    ensures |cmd| == |body| + 3 && cmd[0] == '$' && cmd[1..|cmd| - 2] == body
    ensures cmd[|cmd| - 2..] == "\r\n"
  {
    "$" + body + "\r\n"
  }

  /** The telemetry query sent at the start of every read. */
  const Query: string := Frame("A")

  /** Fan duty for a speed percentage: `pct * 1999 / 100` in C arithmetic. */
  function FanValue(pct: int): (v: int)
    ensures 0 <= pct <= 100 ==> 0 <= v <= 1999
    ensures 0 <= pct <= 100 ==> (v == 0 <==> pct == 0) && (v == 1999 <==> pct == 100)
  {
    CDiv(pct * 1999, 100)
  }

  /** A higher percentage never asks for a lower duty. */
  lemma FanValueMonotone(p: int, q: int)
    requires 0 <= p <= q <= 100
    ensures FanValue(p) <= FanValue(q)
  {
    CDivMonotone(p * 1999, q * 1999, 100);
  }

  /** `$F<fan><duty>` for fan `1`, `2` or `3`. */
  function FanCommand(fan: char, pct: int): string
  {
    Frame("F" + [fan] + IntToString(FanValue(pct)))
  }

  /** sendIntakeFanCommand: the same duty to both intake fans, fan 1 first. */
  function IntakeFanCommands(pct: int): seq<string>
  {
    [FanCommand('1', pct), FanCommand('2', pct)]
  }

  /** sendExhaustFanCommand. */
  function ExhaustFanCommands(pct: int): seq<string>
  {
    [FanCommand('3', pct)]
  }

  /** sendRGBLedCommand: `$LA<hue>,<saturation>,<value>`. */
  function RgbCommand(hue: int, saturation: int, value: int): string
  {
    Frame("LA" + IntToString(hue) + "," + IntToString(saturation) + "," + IntToString(value))
  }

  /** sendBrakeMotorCommand: `$B1` engages the brake motor, `$B0` releases it. */
  function BrakeCommand(active: bool): (cmd: string)
    ensures cmd == (if active then "$B1\r\n" else "$B0\r\n")
    ensures cmd[2] == (if active then '1' else '0')
  {
    Frame("B" + (if active then "1" else "0"))
  }

  /** A fan command is written as `$F`, the fan, the duty and CR LF. */
  lemma FanCommandText(fan: char, pct: int)
    ensures FanCommand(fan, pct) == "$F" + [fan] + IntToString(FanValue(pct)) + "\r\n"
  {
  }

  /** The colour command is written piece by piece: `$LA`, the hue, a
      comma, the saturation, a comma, the value and CR LF. */
  lemma RgbCommandText(hue: int, saturation: int, value: int)
    ensures RgbCommand(hue, saturation, value) ==
      "$LA" + IntToString(hue) + "," + IntToString(saturation) + "," + IntToString(value) + "\r\n"
  {
    var h, s, v := IntToString(hue), IntToString(saturation), IntToString(value);
    assert "$" + ("LA" + h) == "$LA" + h;
    assert "$" + ("LA" + h + ",") == "$LA" + h + ",";
    assert "$" + ("LA" + h + "," + s) == "$LA" + h + "," + s;
    assert "$" + ("LA" + h + "," + s + ",") == "$LA" + h + "," + s + ",";
    assert "$" + ("LA" + h + "," + s + "," + v) == "$LA" + h + "," + s + "," + v;
  }

  lemma NatString(n: nat)
    ensures IntToString(n) == NatToString(n)
  {
  }

  /** Every character of a digit string is printable. */
  lemma DigitsPrintable(s: string)
    requires AllDigits(s)
    ensures AllPrintable(s)
  {
    assert forall c <- s :: IsPrintable(c) by {
      forall c <- s
        ensures IsPrintable(c)
      {
        var i :| 0 <= i < |s| && s[i] == c;
        assert IsDigit(s[i]);
      }
    }
  }

  /** The duty in a fan command reads back, with the firmware's own number
      reader, as the duty computed from the percentage. */
  lemma FanCommandReadsBack(fan: char, pct: int)
    requires 0 <= pct <= 100
    ensures var cmd := FanCommand(fan, pct);
      cmd[..3] == "$F" + [fan] && Tokens(cmd[3..]) == [FanValue(pct)]
  {
    var v: nat := FanValue(pct);
    var cmd := FanCommand(fan, pct);
    NatString(v);
    assert cmd == "$F" + [fan] + (NatToString(v) + "\r\n");
    assert cmd[3..] == Csv([v]) + "\r\n";
    NumeralsRoundTrip([v], "\r\n");
  }

  /** The arguments of the colour command are the three components as a
      comma-separated list. */
  lemma RgbCommandArguments(hue: nat, saturation: nat, value: nat)
    ensures var cmd := RgbCommand(hue, saturation, value);
      |cmd| >= 3 && cmd[..3] == "$LA" && cmd[3..] == Csv([hue, saturation, value]) + "\r\n"
  {
    var h, s, v := NatToString(hue), NatToString(saturation), NatToString(value);
    NatString(hue);
    NatString(saturation);
    NatString(value);
    var args := h + "," + s + "," + v;
    CsvSingle(hue);
    CsvSnoc([hue], saturation);
    assert [hue] + [saturation] == [hue, saturation];
    CsvSnoc([hue, saturation], value);
    assert [hue, saturation] + [value] == [hue, saturation, value];
    assert Csv([hue, saturation, value]) == args;
    assert "LA" + IntToString(hue) + "," + IntToString(saturation) + "," + IntToString(value) == "LA" + args;
    FramedParts("LA", args);
  }

  /** The first characters of a framed command are `$` and the command name. */
  lemma FramedParts(name: string, args: string)
    requires |name| == 2
    ensures var cmd := Frame(name + args);
      cmd[..3] == "$" + name && cmd[3..] == args + "\r\n"
  {
    var cmd := Frame(name + args);
    assert cmd == ("$" + name) + (args + "\r\n");
  }

  /** The three colour components read back, in order. */
  lemma RgbCommandReadsBack(hue: nat, saturation: nat, value: nat)
    requires hue < 0x8000_0000 && saturation < 0x8000_0000 && value < 0x8000_0000
    ensures var cmd := RgbCommand(hue, saturation, value);
      cmd[..3] == "$LA" && Tokens(cmd[3..]) == [hue, saturation, value]
  {
    RgbCommandArguments(hue, saturation, value);
    NumeralsRoundTrip([hue, saturation, value], "\r\n");
  }

  /** A framed command with a printable body of at most 61 characters is
      what the firmware's own line reader accepts as one line: reading it
      yields `$` and the body, and leaves the LF of the CR LF behind. */
  lemma FrameReadsAsLine(body: string, more: string)
    requires AllPrintable(body) && |body| <= 61
    ensures ReadLine(Frame(body) + more) == Line("$" + body, "\n" + more)
  {
    var text := "$" + body;
    assert AllPrintable(text) by {
      assert forall c <- text :: c == '$' || c in body;
    }
    assert Frame(body) + more == text + "\r\n" + more;
    CrLfLeavesLineFeed(text, more);
  }
}
